/** The grammar of what the wrapper puts on the bus. */
module AuthStackTrace {
  import opened Options
  import opened AuthStackTypes
  import opened AuthStackWrapper

  /** Closing: the last signal of the session is out and its object must go next. */
  datatype Phase = Closed | Open | Closing

  datatype Phases = Phases(enroll: Phase, auth: Phase) {

    function At(k: SlotKind): Phase { if k.EnrollSlot? then enroll else auth }

    function Put(k: SlotKind, p: Phase): Phases {
      if k.EnrollSlot? then this.(enroll := p) else this.(auth := p)
    }

    predicate Settled() { !enroll.Closing? && !auth.Closing? }
  }

  /** Objects are registered and unregistered in turn, signals and path replies come only in
      between, an enroll signal with done set and a SessionFailed are the last of their
      session, and an end call succeeds or is refused only once the object is gone. */
  function Next(p: Phases, o: Output): Option<Phases>
  {
    match o
    case Register(k) =>
      if p.Settled() && p.At(k).Closed? then Some(p.Put(k, Open)) else None
    case Unregister(k) =>
      if !p.At(k).Closed? && (p.At(k).Closing? || p.Settled()) then Some(p.Put(k, Closed)) else None
    case EnrollScanDone(_, done, _) =>
      if p.Settled() && p.enroll.Open? then Some(if done then p.(enroll := Closing) else p) else None
    case AuthScanDone =>
      if p.Settled() && p.auth.Open? then Some(p) else None
    case SessionFailed =>
      if !p.Settled() then None
      else if p.enroll.Open? then Some(p.(enroll := Closing))
      else if p.auth.Open? then Some(p.(auth := Closing))
      else None
    case SessionPath(k) =>
      if p.Settled() && p.At(k).Open? then Some(p) else None
    case StartError(_) =>
      if p.Settled() then Some(p) else None
    case EndOk(k) =>
      if p.Settled() && p.At(k).Closed? then Some(p) else None
    case EndError(k) =>
      if p.Settled() && p.At(k).Closed? then Some(p) else None
    case _ => Some(p)
  }

  function Parse(log: seq<Output>): Option<Phases>
  {
    if log == [] then Some(Phases(Closed, Closed))
    else
      match Parse(log[..|log| - 1])
      case None => None
      case Some(p) => Next(p, log[|log| - 1])
  }

  predicate InPhase(w: Wrapper, p: Phases)
  {
    Parse(w.log) == Some(p)
  }

  function PhaseOf(s: Slot): Phase
  {
    if s.exported then Open else Closed
  }

  function PhasesOf(w: Wrapper): Phases
  {
    Phases(PhaseOf(w.enroll), PhaseOf(w.auth))
  }

  lemma SayIn(w: Wrapper, p: Phases, o: Output)
    requires InPhase(w, p) && Next(p, o).Some?
    ensures InPhase(w.Say(o), Next(p, o).value)
  {
    assert (w.log + [o])[..|w.log|] == w.log;
  }

  lemma RunIn(w: Wrapper, p: Phases, k: SlotKind)
    requires InPhase(w, p)
    ensures InPhase(RunAndReset(w, k), p)
  {
    hide Parse;
    if w.At(k).Held() {
      SayIn(w, p, RunEnd(k, w.At(k).session.value));
    }
  }

  lemma UnexportIn(w: Wrapper, p: Phases, k: SlotKind)
    requires InPhase(w, p) && w.At(k).exported && !p.At(k).Closed? && (p.At(k).Closing? || p.Settled())
    ensures InPhase(Unexport(w, k), p.Put(k, Closed))
  {
    hide Parse;
    SayIn(w, p, Unregister(k));
  }

  lemma CloseIn(w: Wrapper, k: SlotKind)
    requires InPhase(w, PhasesOf(w))
    ensures InPhase(Close(w, k), PhasesOf(Close(w, k)))
  {
    hide Parse;
    RunIn(w, PhasesOf(w), k);
    if w.At(k).exported {
      UnexportIn(SetOwner(RunAndReset(w, k), k, ""), PhasesOf(w), k);
    }
  }

  lemma FailIn(w: Wrapper, k: SlotKind)
    requires InPhase(w, PhasesOf(w)) && (k.AuthSlot? ==> !w.enroll.exported)
    ensures InPhase(Fail(w, k), PhasesOf(Fail(w, k)))
  {
    hide Parse;
    var p := PhasesOf(w);
    if w.At(k).exported {
      SayIn(w, p, SessionFailed);
      UnexportIn(SetOwner(w.Say(SessionFailed), k, ""), p.Put(k, Closing), k);
      RunIn(Finalize(w.Say(SessionFailed), k), p.Put(k, Closed), k);
    } else {
      RunIn(w, p, k);
    }
  }

  lemma StartEnrollIn(w: Wrapper, sender: string)
    requires InPhase(w, PhasesOf(w))
    ensures var w' := OnStartEnroll(w, sender, true); InPhase(w', PhasesOf(w'))
  {
    hide Parse;
    var p := PhasesOf(w);
    SayIn(w, p, Started(EnrollSlot, w.issued));
    RunIn(w.Say(Started(EnrollSlot, w.issued)), p, EnrollSlot);
    var w1 := MoveAssign(w, EnrollSlot);
    assert InPhase(w1, p);
    if w.enroll.exported {
      UnexportIn(w1, p, EnrollSlot);
    }
    var w2 := Unexport(w1, EnrollSlot);
    SayIn(w2, p.Put(EnrollSlot, Closed), Register(EnrollSlot));
    SayIn(Export(w1, EnrollSlot), p.Put(EnrollSlot, Open), SessionPath(EnrollSlot));
  }

  lemma StartAuthIn(w: Wrapper, sender: string)
    requires InPhase(w, PhasesOf(w))
    ensures var w' := OnStartAuth(w, sender, true); InPhase(w', PhasesOf(w'))
  {
    hide Parse;
    var p := PhasesOf(w);
    var w0 := w.Say(Started(AuthSlot, w.issued));
    SayIn(w, p, Started(AuthSlot, w.issued));
    if w.auth.Held() {
      SayIn(w0, p, Released(AuthSlot, w.auth.session.value));
    }
    var w1 := ReleaseAndAssign(w, AuthSlot);
    if !w.auth.exported {
      SayIn(w1, p, Register(AuthSlot));
    }
    var w2 := if w1.auth.exported then w1 else Export(w1, AuthSlot);
    SayIn(w2, p.Put(AuthSlot, Open), SessionPath(AuthSlot));
  }

  lemma ScanIn(w: Wrapper, result: ScanResult, done: bool, percent: int)
    requires InPhase(w, PhasesOf(w))
    ensures var w' := OnEnrollScanDone(w, result, done, percent); InPhase(w', PhasesOf(w'))
  {
    hide Parse;
    if w.enroll.exported {
      var p := PhasesOf(w);
      var o := EnrollScanDone(result, done, if percent >= 0 then Some(percent) else None);
      SayIn(w, p, o);
      if done {
        RunIn(w.Say(o), p.(enroll := Closing), EnrollSlot);
        UnexportIn(SetOwner(RunAndReset(w.Say(o), EnrollSlot), EnrollSlot, ""), p.(enroll := Closing), EnrollSlot);
      }
    }
  }

  lemma EndIn(w: Wrapper, k: SlotKind)
    requires InPhase(w, PhasesOf(w)) && Coherent(w)
    ensures var w' := OnSessionEnd(w, k); InPhase(w', PhasesOf(w'))
  {
    hide Parse;
    if w.At(k).Held() {
      CloseIn(w, k);
      SayIn(Close(w, k), PhasesOf(Close(w, k)), EndOk(k));
    } else {
      SayIn(w, PhasesOf(w), EndError(k));
    }
  }

  lemma StepIn(w: Wrapper, e: Event)
    requires InPhase(w, PhasesOf(w)) && Coherent(w)
    ensures InPhase(Step(w, e), PhasesOf(Step(w, e)))
  {
    hide Parse;
    match e
    case StartEnroll(sender, accepted) =>
      if accepted { StartEnrollIn(w, sender); } else { SayIn(w, PhasesOf(w), StartError(EnrollSlot)); }
    case StartAuth(sender, accepted) =>
      if accepted { StartAuthIn(w, sender); } else { SayIn(w, PhasesOf(w), StartError(AuthSlot)); }
    case EnrollCancel =>
      EndIn(w, EnrollSlot);
    case AuthEnd =>
      EndIn(w, AuthSlot);
    case NameOwnerChanged(_, _) =>
      CloseIn(w, EnrollSlot);
      CloseIn(w, AuthSlot);
      CloseIn(Close(w, EnrollSlot), AuthSlot);
    case MalformedNameOwnerChanged =>
    case EnrollScan(result, done, percent) =>
      ScanIn(w, result, done, percent);
    case AuthScan =>
      if w.auth.exported { SayIn(w, PhasesOf(w), AuthScanDone); }
    case Failed =>
      FailIn(w, EnrollSlot);
      FailIn(Fail(w, EnrollSlot), AuthSlot);
    case Forward(call) =>
      SayIn(w, PhasesOf(w), Forwarded(call));
  }

  /** Everything the wrapper ever says, in any run and for any manager, follows the grammar,
      and an object is registered exactly when its slot says so. */
  lemma {:induction false} TraceFollowsGrammar(es: seq<Event>)
    requires AllFromBus(es)
    ensures Parse(Run(es).log) == Some(PhasesOf(Run(es)))
  {
    if es == [] {
    } else {
      var front := es[..|es| - 1];
      TraceFollowsGrammar(front);
      RunCoherent(front);
      StepIn(Run(front), es[|es| - 1]);
    }
  }

  function Failures(log: seq<Output>): nat
  {
    if log == [] then 0 else Failures(log[..|log| - 1]) + if log[|log| - 1].SessionFailed? then 1 else 0
  }

  lemma SayFailures(w: Wrapper, o: Output)
    ensures Failures(w.Say(o).log) == Failures(w.log) + if o.SessionFailed? then 1 else 0
  {
    assert (w.log + [o])[..|w.log|] == w.log;
  }

  lemma FailFailures(w: Wrapper, k: SlotKind)
    ensures Failures(Fail(w, k).log) == Failures(w.log) + if w.At(k).exported then 1 else 0
    ensures var other := if k.EnrollSlot? then AuthSlot else EnrollSlot; Fail(w, k).At(other) == w.At(other)
  {
    hide Failures;
    SayFailures(w, SessionFailed);
    var w1 := w.Say(SessionFailed);
    SayFailures(w1, Unregister(k));
    var w2 := if w.At(k).exported then Finalize(w1, k) else w;
    if w.At(k).Held() {
      SayFailures(w2, RunEnd(k, w.At(k).session.value));
    }
  }

  /** A failure report puts out one SessionFailed for each active session and none when idle. */
  lemma FailureReportSignals(w: Wrapper)
    ensures Failures(Step(w, Failed).log) - Failures(w.log)
            == (if w.enroll.exported then 1 else 0) + (if w.auth.exported then 1 else 0)
    ensures Step(w, Failed).enroll.session.None? && Step(w, Failed).auth.session.None?
  {
    hide Failures;
    FailFailures(w, EnrollSlot);
    FailFailures(Fail(w, EnrollSlot), AuthSlot);
  }
}
