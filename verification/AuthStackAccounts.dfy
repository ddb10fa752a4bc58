/** The accounts of the fingerprint manager: what the replies of the credential calls mean over
    whole runs. */
module AuthStackAccounts {
  import opened Options
  import opened AuthStackTypes
  import opened CrosFpManager
  import opened AuthStackSystem

  // ---------- reading the accounts ----------

  /** The last note of a kind. */
  function Last(kind: Note -> bool, notes: seq<Note>): (r: Option<Note>)
    ensures r.Some? ==> r.value in notes && kind(r.value)
  {
    if notes == [] then None
    else if kind(notes[|notes| - 1]) then Some(notes[|notes| - 1])
    else Last(kind, notes[..|notes| - 1])
  }

  lemma LastAppend(kind: Note -> bool, notes: seq<Note>, more: seq<Note>)
    requires |more| <= 1
    ensures Last(kind, notes + more) == if more != [] && kind(more[0]) then Some(more[0]) else Last(kind, notes)
  {
    if more == [] {
      assert notes + more == notes;
    } else {
      assert (notes + more)[..|notes|] == notes;
    }
  }

  predicate AboutMatch(n: Note) { n.MatchSeen? || n.MatchUsed? }

  predicate AboutEnrolment(n: Note) { n.EnrolmentDone? || n.TemplateMigrated? || n.CredentialCreated? }

  /** The match the sensor reported last, unless it has been used. */
  function UnusedMatch(notes: seq<Note>): Option<SensorEvent>
  {
    match Last(AboutMatch, notes)
    case Some(MatchSeen(ev)) => Some(ev)
    case _ => None
  }

  /** An enrolment was finished, or a template migrated, and no credential made of it. */
  predicate UnusedEnrolment(notes: seq<Note>)
  {
    var n := Last(AboutEnrolment, notes);
    n.Some? && !n.value.CredentialCreated?
  }

  predicate IsPositive(r: MatchResult)
  {
    r.MatchYes? || r.MatchYesUpdated? || r.MatchYesUpdateFailed?
  }

  /** Entry n is in order behind the entries before it: what it uses is there, unused. */
  predicate Follows(before: seq<Note>, n: Note)
  {
    && (n.MatchUsed? ==> UnusedMatch(before) == Some(n.ev) && (n.reply.Success? ==> IsPositive(n.ev.matchResult)))
    && (n.CredentialCreated? ==> UnusedEnrolment(before) && n.user.Some?)
  }

  /** Every entry obeys a rule about the entries before it. */
  ghost predicate All(rule: (seq<Note>, Note) -> bool, notes: seq<Note>)
  {
    forall j :: 0 <= j < |notes| ==> rule(notes[..j], notes[j])
  }

  lemma AllAppend(rule: (seq<Note>, Note) -> bool, notes: seq<Note>, more: seq<Note>)
    requires All(rule, notes) && |more| <= 1 && (more != [] ==> rule(notes, more[0]))
    ensures All(rule, notes + more)
  {
    var all := notes + more;
    forall j | 0 <= j < |all|
      ensures rule(all[..j], all[j])
    {
      if j < |notes| {
        assert all[..j] == notes[..j] && all[j] == notes[j];
      } else {
        assert all[..j] == notes;
      }
    }
  }

  // ---------- the accounts and the manager agree ----------

  ghost predicate Accounted(s: System)
  {
    && s.m.pendingMatch == UnusedMatch(s.notes)
    && (s.m.state.KEnrollDone? ==> UnusedEnrolment(s.notes))
    && All(Follows, s.notes)
  }

  lemma PendingMatchAfter(s: System, h: Happening)
    requires InOrder(s)
    ensures ManagerAfter(s, h).pendingMatch
            == match h
               case Sensor(ev, a) => (if Read(s.m, ev, a).Matched? then Some(ev) else s.m.pendingMatch)
               case CallAuthenticateCredential(_) => (if s.m.state.KAuthDone? then None else s.m.pendingMatch)
               case _ => s.m.pendingMatch
  {
    if h.LoggedIn? {
      LoadUserState(s.m, h.user, true, h.a);
    }
    if h.CallStartAuth? {
      LoadUserState(s.m, h.req.user, false, h.a);
    }
    hide LoadUser;
  }

  lemma EnrollDoneAfter(s: System, h: Happening)
    requires InOrder(s) && ManagerAfter(s, h).state.KEnrollDone?
    ensures (s.m.state.KEnrollDone? && (NotesOf(s, h) == [] || !AboutEnrolment(NotesOf(s, h)[0])))
            || (NotesOf(s, h) != [] && (NotesOf(s, h)[0].EnrolmentDone? || NotesOf(s, h)[0].TemplateMigrated?))
  {
    if h.LoggedIn? {
      LoadUserState(s.m, h.user, true, h.a);
    }
    if h.CallStartAuth? {
      LoadUserState(s.m, h.req.user, false, h.a);
    }
    hide LoadUser;
  }

  /** What is answered about a match, reply by reply. */
  predicate AnswersMatch(reply: CredentialReply, result: MatchResult, a: Answers)
  {
    && (reply.Success? <==> !a.powerButton && IsPositive(result) && a.metadata && a.getSecret)
    && (reply == Scan(ScanPowerButtonPressed) <==> a.powerButton)
    && (reply == Scan(ScanNoMatch) <==> !a.powerButton && result == MatchNo)
    && (reply == Scan(ScanInsufficient) <==> !a.powerButton && result == MatchNoLowQuality)
    && (reply == Scan(ScanPartial) <==> !a.powerButton && result == MatchNoLowCoverage)
    && reply != Scan(ScanSuccess) && reply != Scan(ScanImmobile)
    && (reply.NoTemplates? <==> !a.powerButton && (result == MatchNoTemplates || (IsPositive(result) && !a.metadata)))
    && (reply.NoSecret? <==> !a.powerButton && IsPositive(result) && a.metadata && !a.getSecret)
    && (reply.InternalError? <==> !a.powerButton && (result == MatchNoInternal || result == MatchUnknown))
    && !reply.IncorrectState? && !reply.NoTemplate? && !reply.CreateRecordFailed? && !reply.NotExist?
    && !reply.DeletionFailed?
  }

  lemma MatchReplyIff(ev: SensorEvent, a: Answers)
    ensures AnswersMatch(MatchReply(ev, a), ev.matchResult, a)
  {
  }

  lemma StepFollows(s: System, h: Happening)
    requires InOrder(s) && Accounted(s) && NotesOf(s, h) != []
    ensures |NotesOf(s, h)| == 1 && Follows(s.notes, NotesOf(s, h)[0])
  {
    hide Last;
    hide All;
    if h.CallAuthenticateCredential? && s.m.pendingMatch.Some? {
      MatchReplyIff(s.m.pendingMatch.value, h.a);
    }
    hide MatchReply;
    hide StartAuthSession;
    hide StartEnrollSession;
    hide Read;
  }

  lemma MatchAccountAfter(s: System, h: Happening)
    requires InOrder(s) && s.m.pendingMatch == UnusedMatch(s.notes)
    ensures ManagerAfter(s, h).pendingMatch == UnusedMatch(s.notes + NotesOf(s, h))
  {
    PendingMatchAfter(s, h);
    LastAppend(AboutMatch, s.notes, NotesOf(s, h));
    hide Last;
    hide ManagerAfter;
    hide MatchReply;
    hide StartAuthSession;
    hide StartEnrollSession;
  }

  lemma EnrolmentAccountAfter(s: System, h: Happening)
    requires InOrder(s) && (s.m.state.KEnrollDone? ==> UnusedEnrolment(s.notes))
    ensures ManagerAfter(s, h).state.KEnrollDone? ==> UnusedEnrolment(s.notes + NotesOf(s, h))
  {
    if ManagerAfter(s, h).state.KEnrollDone? {
      EnrollDoneAfter(s, h);
      LastAppend(AboutEnrolment, s.notes, NotesOf(s, h));
    }
    hide Last;
    hide ManagerAfter;
    hide InOrder;
  }

  lemma StepAccounted(s: System, h: Happening)
    requires InOrder(s) && Accounted(s)
    ensures Accounted(Step(s, h))
  {
    StepEffect(s, h);
    var more := NotesOf(s, h);
    if more != [] {
      StepFollows(s, h);
    }
    AllAppend(Follows, s.notes, more);
    MatchAccountAfter(s, h);
    EnrolmentAccountAfter(s, h);
    hide Step;
    hide Last;
    hide All;
    hide Follows;
    hide ManagerAfter;
    hide NotesOf;
    hide InOrder;
    hide UnusedMatch;
    hide UnusedEnrolment;
  }

  lemma {:induction false} RunAccounted(hs: seq<Happening>)
    requires AllFromBus(hs)
    ensures Accounted(Run(hs))
  {
    hide Step;
    if hs == [] {
    } else {
      RunAccounted(hs[..|hs| - 1]);
      RunInOrder(hs[..|hs| - 1]);
      StepAccounted(Run(hs[..|hs| - 1]), hs[|hs| - 1]);
    }
  }

  // ---------- what the replies mean ----------

  /** After any run an authentication is refused for its state iff the manager is not ready for
      it. Otherwise there is a match that the sensor reported last and that has not been used, and
      every other answer is given iff that match, the power button, the record and the secret are
      as stated. */
  lemma AuthenticateReplyMeans(hs: seq<Happening>, a: Answers)
    requires AllFromBus(hs)
    ensures var s := Run(hs);
            var reply := AuthenticateCredential(s.m, a).reply;
            && (reply.IncorrectState? <==> !s.m.state.KAuthDone?)
            && (s.m.state.KAuthDone? ==>
                  && UnusedMatch(s.notes).Some?
                  && AnswersMatch(reply, UnusedMatch(s.notes).value.matchResult, a))
  {
    hide Run;
    hide InOrder;
    RunAccounted(hs);
    RunInOrder(hs);
    var s := Run(hs);
    assert s.m.state.KAuthDone? ==> s.m.pendingMatch.Some? by { AuthDoneHasMatch(s); }
    if s.m.pendingMatch.Some? {
      MatchReplyIff(s.m.pendingMatch.value, a);
    }
    hide MatchReply;
    hide Accounted;
    assert s.m.pendingMatch == UnusedMatch(s.notes) by { AccountedMatch(s); }
    hide UnusedMatch;
  }

  lemma AccountedMatch(s: System)
    requires Accounted(s)
    ensures s.m.pendingMatch == UnusedMatch(s.notes)
  {
  }

  lemma AuthDoneHasMatch(s: System)
    requires InOrder(s)
    ensures s.m.state.KAuthDone? ==> s.m.pendingMatch.Some?
  {
  }

  /** Every answer ever given to an authentication is about the match that the sensor had
      reported last, which no answer before it was about; success was answered to positive
      matches only. */
  lemma EveryMatchUsedOnce(hs: seq<Happening>, j: nat)
    requires AllFromBus(hs) && j < |Run(hs).notes| && Run(hs).notes[j].MatchUsed?
    ensures var notes := Run(hs).notes;
            && Last(AboutMatch, notes[..j]) == Some(MatchSeen(notes[j].ev))
            && (notes[j].reply.Success? ==> IsPositive(notes[j].ev.matchResult))
  {
    RunAccounted(hs);
    assert Follows(Run(hs).notes[..j], Run(hs).notes[j]);
  }

  /** Every credential ever created is made of an enrolment that was finished, or a template
      that was migrated, since the credential before it, and for a user who was loaded. */
  lemma EveryCredentialFromAnEnrolment(hs: seq<Happening>, j: nat)
    requires AllFromBus(hs) && j < |Run(hs).notes| && Run(hs).notes[j].CredentialCreated?
    ensures var notes := Run(hs).notes;
            && Last(AboutEnrolment, notes[..j]).Some? && !Last(AboutEnrolment, notes[..j]).value.CredentialCreated?
            && notes[j].user.Some?
  {
    RunAccounted(hs);
    assert Follows(Run(hs).notes[..j], Run(hs).notes[j]);
  }

  /** After any run the creation of a credential is refused for its state iff the manager is not
      ready for it or no user is loaded. Otherwise an enrolment is there that no credential was made
      of, and it fails at the first of template, secret and store that does, or succeeds. */
  lemma CreateReplyMeans(hs: seq<Happening>, a: Answers)
    requires AllFromBus(hs)
    ensures var s := Run(hs);
            var reply := CreateCredential(s.m, a).reply;
            var ready := s.m.state.KEnrollDone? && s.m.user.Some?;
            && (ready ==> UnusedEnrolment(s.notes))
            && (reply.IncorrectState? <==> !ready)
            && (reply.NoTemplate? <==> ready && !a.getTemplate)
            && (reply.NoSecret? <==> ready && a.getTemplate && !a.getSecret)
            && (reply.CreateRecordFailed? <==> ready && a.getTemplate && a.getSecret && !a.createRecord)
            && (reply.Success? <==> ready && a.getTemplate && a.getSecret && a.createRecord)
  {
    RunAccounted(hs);
  }
}
