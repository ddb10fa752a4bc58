/** What the wrapper guarantees when the manager keeps the contract of auth_stack_manager.h:
    a session lasts until its closure is run or its failure is reported, and a start fails
    while another mode is active, except that an auth session may be started again. */
module AuthStackContract {
  import opened Options
  import opened AuthStackTypes
  import opened AuthStackWrapper

  // ---------- the manager's mode, as the closures it handed out determine it ----------

  datatype Mode = NoSession | EnrollMode | AuthMode

  /** Running any end closure ends whatever session is going on. */
  function ModeAfter(m: Mode, o: Output): Mode
  {
    match o
    case Started(k, _) => if k.EnrollSlot? then EnrollMode else AuthMode
    case RunEnd(_, _) => NoSession
    case SessionFailed => NoSession
    case _ => m
  }

  function ModeOf(log: seq<Output>): Mode
  {
    if log == [] then NoSession else ModeAfter(ModeOf(log[..|log| - 1]), log[|log| - 1])
  }

  predicate Permits(m: Mode, e: Event)
  {
    && (e.StartEnroll? && e.accepted ==> m.NoSession?)
    && (e.StartAuth? && e.accepted ==> !m.EnrollMode?)
  }

  /** Every start the manager accepts in this run is one the contract permits. */
  ghost predicate MeetsContract(es: seq<Event>)
  {
    forall i :: 0 <= i < |es| ==> Permits(ModeOf(Run(es[..i]).log), es[i])
  }

  function ModeOfSlots(w: Wrapper): Mode
  {
    if w.enroll.Held() then EnrollMode else if w.auth.Held() then AuthMode else NoSession
  }

  predicate OneSession(w: Wrapper)
  {
    !(w.enroll.Held() && w.auth.Held())
  }

  lemma SayMode(w: Wrapper, o: Output)
    ensures ModeOf(w.Say(o).log) == ModeAfter(ModeOf(w.log), o)
  {
    assert (w.log + [o])[..|w.log|] == w.log;
  }

  lemma RunMode(w: Wrapper, k: SlotKind)
    ensures ModeOf(RunAndReset(w, k).log) == if w.At(k).Held() then NoSession else ModeOf(w.log)
    ensures ModeOf(Unexport(w, k).log) == ModeOf(w.log)
  {
    hide ModeOf;
    if w.At(k).Held() {
      SayMode(w, RunEnd(k, w.At(k).session.value));
    }
    SayMode(w, Unregister(k));
  }

  lemma CloseMode(w: Wrapper, k: SlotKind)
    ensures ModeOf(Close(w, k).log) == if w.At(k).Held() then NoSession else ModeOf(w.log)
    ensures ModeOf(Close(w, k).Say(EndOk(k)).log) == ModeOf(Close(w, k).log)
  {
    hide ModeOf;
    RunMode(w, k);
    RunMode(SetOwner(RunAndReset(w, k), k, ""), k);
    SayMode(Close(w, k), EndOk(k));
  }

  lemma FailMode(w: Wrapper, k: SlotKind)
    requires w.At(k).Coherent()
    ensures ModeOf(Fail(w, k).log) == if w.At(k).Held() then NoSession else ModeOf(w.log)
  {
    hide ModeOf;
    SayMode(w, SessionFailed);
    RunMode(SetOwner(w.Say(SessionFailed), k, ""), k);
    RunMode(if w.At(k).exported then Finalize(w.Say(SessionFailed), k) else w, k);
  }

  lemma ScanMode(w: Wrapper, result: ScanResult, done: bool, percent: int)
    requires w.enroll.Coherent()
    ensures ModeOf(OnEnrollScanDone(w, result, done, percent).log)
            == if w.enroll.Held() && done then NoSession else ModeOf(w.log)
  {
    hide ModeOf;
    var o := EnrollScanDone(result, done, if percent >= 0 then Some(percent) else None);
    SayMode(w, o);
    RunMode(w.Say(o), EnrollSlot);
    RunMode(SetOwner(RunAndReset(w.Say(o), EnrollSlot), EnrollSlot, ""), EnrollSlot);
  }

  /** Enroll's plain move-assignment leaves the manager in enroll mode only if it had nothing
      to run. */
  lemma StartEnrollMode(w: Wrapper, sender: string)
    ensures ModeOf(OnStartEnroll(w, sender, true).log) == if w.enroll.Held() then NoSession else EnrollMode
  {
    hide ModeOf;
    SayMode(w, Started(EnrollSlot, w.issued));
    RunMode(w.Say(Started(EnrollSlot, w.issued)), EnrollSlot);
    var w1 := MoveAssign(w, EnrollSlot);
    RunMode(w1, EnrollSlot);
    SayMode(Unexport(w1, EnrollSlot), Register(EnrollSlot));
    SayMode(Export(w1, EnrollSlot), SessionPath(EnrollSlot));
  }

  /** An auth start, first or repeated, leaves the manager in auth mode. */
  lemma StartAuthMode(w: Wrapper, sender: string)
    ensures ModeOf(OnStartAuth(w, sender, true).log) == AuthMode
  {
    hide ModeOf;
    var w0 := w.Say(Started(AuthSlot, w.issued));
    SayMode(w, Started(AuthSlot, w.issued));
    if w.auth.Held() {
      SayMode(w0, Released(AuthSlot, w.auth.session.value));
    }
    var w1 := ReleaseAndAssign(w, AuthSlot);
    SayMode(Unexport(w1, AuthSlot), Register(AuthSlot));
    SayMode(if w1.auth.exported then w1 else Export(w1, AuthSlot), SessionPath(AuthSlot));
  }

  /** The same start with plain move-assignment instead of Release. */
  function StartAuthWithoutRelease(w: Wrapper, sender: string): Wrapper
  {
    var w1 := MoveAssign(w, AuthSlot);
    var w2 := if w1.auth.exported then w1 else Export(w1, AuthSlot);
    SetOwner(w2.Say(SessionPath(AuthSlot)), AuthSlot, sender)
  }

  /** Why Release is there: without it, restarting an auth session would end the session that
      was just started, while the slot still held its closure. */
  lemma WithoutReleaseRestartEndsItself(w: Wrapper, sender: string)
    requires Coherent(w) && w.auth.Held()
    ensures ModeOf(StartAuthWithoutRelease(w, sender).log) == NoSession
    ensures StartAuthWithoutRelease(w, sender).auth.session == Some(w.issued)
    ensures ModeOf(OnStartAuth(w, sender, true).log) == AuthMode
    ensures OnStartAuth(w, sender, true).auth.session == Some(w.issued)
  {
    hide ModeOf;
    SayMode(w, Started(AuthSlot, w.issued));
    RunMode(w.Say(Started(AuthSlot, w.issued)), AuthSlot);
    SayMode(MoveAssign(w, AuthSlot), SessionPath(AuthSlot));
    StartAuthMode(w, sender);
  }

  lemma StepMode(w: Wrapper, e: Event)
    requires Coherent(w) && OneSession(w) && ModeOf(w.log) == ModeOfSlots(w) && Permits(ModeOf(w.log), e)
    ensures var w' := Step(w, e); OneSession(w') && ModeOf(w'.log) == ModeOfSlots(w')
  {
    hide ModeOf;
    match e
    case StartEnroll(sender, accepted) =>
      StartEnrollMode(w, sender);
      SayMode(w, StartError(EnrollSlot));
    case StartAuth(sender, accepted) =>
      StartAuthMode(w, sender);
      SayMode(w, StartError(AuthSlot));
    case EnrollCancel =>
      CloseMode(w, EnrollSlot);
      SayMode(w, EndError(EnrollSlot));
    case AuthEnd =>
      CloseMode(w, AuthSlot);
      SayMode(w, EndError(AuthSlot));
    case NameOwnerChanged(_, _) =>
      CloseMode(w, EnrollSlot);
      CloseMode(w, AuthSlot);
      CloseMode(Close(w, EnrollSlot), AuthSlot);
    case MalformedNameOwnerChanged =>
    case EnrollScan(result, done, percent) =>
      ScanMode(w, result, done, percent);
    case AuthScan =>
      SayMode(w, AuthScanDone);
    case Failed =>
      FailMode(w, EnrollSlot);
      FailMode(Fail(w, EnrollSlot), AuthSlot);
    case Forward(call) =>
      SayMode(w, Forwarded(call));
  }

  /** Under the contract the two slots are never both held, and the held slot is the mode the
      manager is in. */
  lemma {:induction false} SlotsMatchMode(es: seq<Event>)
    requires AllFromBus(es) && MeetsContract(es)
    ensures OneSession(Run(es)) && ModeOf(Run(es).log) == ModeOfSlots(Run(es))
  {
    if es == [] {
    } else {
      var n := |es| - 1;
      var front := es[..n];
      assert forall i :: 0 <= i < n ==> front[..i] == es[..i];
      SlotsMatchMode(front);
      RunCoherent(front);
      StepMode(Run(front), es[n]);
    }
  }

  // ---------- the contract, put in terms of the slots ----------

  /** No start is accepted while the other session is going on, nor a second enrolment. */
  predicate Fits(w: Wrapper, e: Event)
  {
    && (e.StartEnroll? && e.accepted ==> !w.enroll.Held() && !w.auth.Held())
    && (e.StartAuth? && e.accepted ==> !w.enroll.Held())
  }

  ghost predicate AlwaysFits(es: seq<Event>)
  {
    forall i :: 0 <= i < |es| ==> Fits(Run(es[..i]), es[i])
  }

  /** A manager that keeps the contract is one whose accepted starts fit the slots. */
  lemma {:induction false} ContractIffFits(es: seq<Event>)
    requires AllFromBus(es)
    ensures MeetsContract(es) <==> AlwaysFits(es)
  {
    hide ModeOf;
    hide Run;
    if es == [] {
    } else {
      var n := |es| - 1;
      var front := es[..n];
      assert forall i :: 0 <= i < n ==> front[..i] == es[..i];
      ContractIffFits(front);
      assert MeetsContract(es) <==> MeetsContract(front) && Permits(ModeOf(Run(front).log), es[n]);
      assert AlwaysFits(es) <==> AlwaysFits(front) && Fits(Run(front), es[n]);
      if MeetsContract(front) {
        SlotsMatchMode(front);
      }
    }
  }

  // ---------- the three-state machine the wrapper implements ----------

  datatype Session = Idle | Enrolling(owner: string) | Authenticating(owner: string)

  datatype Reaction = Reaction(session: Session, out: seq<Output>)

  function Stopped(s: Session, signals: seq<Output>): Reaction
    requires !s.Idle?
  {
    Reaction(Idle, signals + [Unregister(if s.Enrolling? then EnrollSlot else AuthSlot)])
  }

  function React(s: Session, e: Event): Reaction
  {
    match e
    case StartEnroll(sender, true) =>
      Reaction(Enrolling(sender), [Register(EnrollSlot), SessionPath(EnrollSlot)])
    case StartEnroll(_, false) =>
      Reaction(s, [StartError(EnrollSlot)])
    case StartAuth(sender, true) =>
      Reaction(Authenticating(sender),
               (if s.Authenticating? then [] else [Register(AuthSlot)]) + [SessionPath(AuthSlot)])
    case StartAuth(_, false) =>
      Reaction(s, [StartError(AuthSlot)])
    case EnrollCancel =>
      if s.Enrolling? then Reaction(Idle, [Unregister(EnrollSlot), EndOk(EnrollSlot)])
      else Reaction(s, [EndError(EnrollSlot)])
    case AuthEnd =>
      if s.Authenticating? then Reaction(Idle, [Unregister(AuthSlot), EndOk(AuthSlot)])
      else Reaction(s, [EndError(AuthSlot)])
    case NameOwnerChanged(name, newOwner) =>
      if !s.Idle? && s.owner == name && newOwner == "" then Stopped(s, []) else Reaction(s, [])
    case MalformedNameOwnerChanged =>
      Reaction(s, [])
    case EnrollScan(result, done, percent) =>
      if !s.Enrolling? then Reaction(s, [])
      else
        var signal := EnrollScanDone(result, done, if percent >= 0 then Some(percent) else None);
        if done then Stopped(s, [signal]) else Reaction(s, [signal])
    case AuthScan =>
      Reaction(s, if s.Authenticating? then [AuthScanDone] else [])
    case Failed =>
      if s.Idle? then Reaction(s, []) else Stopped(s, [SessionFailed])
    case Forward(call) =>
      Reaction(s, [Forwarded(call)])
  }

  function ReactAll(es: seq<Event>): Reaction
  {
    if es == [] then Reaction(Idle, [])
    else
      var before := ReactAll(es[..|es| - 1]);
      var now := React(before.session, es[|es| - 1]);
      Reaction(now.session, before.out + now.out)
  }

  function SessionOf(w: Wrapper): Session
  {
    if w.enroll.Held() then Enrolling(w.enroll.owner)
    else if w.auth.Held() then Authenticating(w.auth.owner)
    else Idle
  }

  /** w' has said, visibly, what w had said and then out. */
  predicate Says(w: Wrapper, w': Wrapper, out: seq<Output>)
  {
    VisiblePart(w'.log) == VisiblePart(w.log) + out
  }

  lemma SaySays(w: Wrapper, o: Output)
    ensures Says(w, w.Say(o), if Visible(o) then [o] else [])
  {
    assert (w.log + [o])[..|w.log|] == w.log;
  }

  lemma RunSays(w: Wrapper, k: SlotKind)
    ensures Says(w, RunAndReset(w, k), [])
    ensures Says(w, Unexport(w, k), if w.At(k).exported then [Unregister(k)] else [])
  {
    hide VisiblePart;
    if w.At(k).Held() {
      SaySays(w, RunEnd(k, w.At(k).session.value));
    }
    SaySays(w, Unregister(k));
  }

  lemma CloseSays(w: Wrapper, k: SlotKind)
    requires w.At(k).Coherent() && w.At(k).Held()
    ensures Says(w, Close(w, k), [Unregister(k)])
    ensures Says(w, Close(w, k).Say(EndOk(k)), [Unregister(k), EndOk(k)])
  {
    hide VisiblePart;
    RunSays(w, k);
    RunSays(SetOwner(RunAndReset(w, k), k, ""), k);
    SaySays(Close(w, k), EndOk(k));
  }

  lemma FailSays(w: Wrapper, k: SlotKind)
    requires w.At(k).Coherent()
    ensures Says(w, Fail(w, k), if w.At(k).Held() then [SessionFailed, Unregister(k)] else [])
  {
    hide VisiblePart;
    SaySays(w, SessionFailed);
    RunSays(SetOwner(w.Say(SessionFailed), k, ""), k);
    RunSays(if w.At(k).exported then Finalize(w.Say(SessionFailed), k) else w, k);
  }

  lemma ScanSays(w: Wrapper, result: ScanResult, done: bool, percent: int)
    requires w.enroll.Coherent() && w.enroll.Held()
    ensures var o := EnrollScanDone(result, done, if percent >= 0 then Some(percent) else None);
            Says(w, OnEnrollScanDone(w, result, done, percent), if done then [o, Unregister(EnrollSlot)] else [o])
  {
    hide VisiblePart;
    var o := EnrollScanDone(result, done, if percent >= 0 then Some(percent) else None);
    SaySays(w, o);
    RunSays(w.Say(o), EnrollSlot);
    RunSays(SetOwner(RunAndReset(w.Say(o), EnrollSlot), EnrollSlot, ""), EnrollSlot);
  }

  lemma StartEnrollSays(w: Wrapper, sender: string)
    requires w.enroll.Coherent()
    ensures Says(w, OnStartEnroll(w, sender, true),
                 (if w.enroll.Held() then [Unregister(EnrollSlot)] else []) + [Register(EnrollSlot), SessionPath(EnrollSlot)])
  {
    hide VisiblePart;
    var w0 := w.Say(Started(EnrollSlot, w.issued));
    SaySays(w, Started(EnrollSlot, w.issued));
    RunSays(w0, EnrollSlot);
    var w1 := MoveAssign(w, EnrollSlot);
    RunSays(w1, EnrollSlot);
    SaySays(Unexport(w1, EnrollSlot), Register(EnrollSlot));
    SaySays(Export(w1, EnrollSlot), SessionPath(EnrollSlot));
  }

  lemma StartAuthSays(w: Wrapper, sender: string)
    requires w.auth.Coherent()
    ensures Says(w, OnStartAuth(w, sender, true),
                 (if w.auth.Held() then [] else [Register(AuthSlot)]) + [SessionPath(AuthSlot)])
  {
    hide VisiblePart;
    var w0 := w.Say(Started(AuthSlot, w.issued));
    SaySays(w, Started(AuthSlot, w.issued));
    if w.auth.Held() {
      SaySays(w0, Released(AuthSlot, w.auth.session.value));
    }
    var w1 := ReleaseAndAssign(w, AuthSlot);
    SaySays(w1, Register(AuthSlot));
    SaySays(if w1.auth.exported then w1 else Export(w1, AuthSlot), SessionPath(AuthSlot));
  }

  /** What the clients of the bus hear when both sessions fail. */
  function Failures(w: Wrapper): seq<Output>
  {
    (if w.enroll.Held() then [SessionFailed, Unregister(EnrollSlot)] else [])
    + (if w.auth.Held() then [SessionFailed, Unregister(AuthSlot)] else [])
  }

  /** What the clients of the bus hear of an event, one session or two. */
  function Utters(w: Wrapper, e: Event): seq<Output>
  {
    match e
    case StartEnroll(_, true) =>
      (if w.enroll.Held() then [Unregister(EnrollSlot)] else []) + [Register(EnrollSlot), SessionPath(EnrollSlot)]
    case StartEnroll(_, false) => [StartError(EnrollSlot)]
    case StartAuth(_, true) =>
      (if w.auth.Held() then [] else [Register(AuthSlot)]) + [SessionPath(AuthSlot)]
    case StartAuth(_, false) => [StartError(AuthSlot)]
    case EnrollCancel => if w.enroll.Held() then [Unregister(EnrollSlot), EndOk(EnrollSlot)] else [EndError(EnrollSlot)]
    case AuthEnd => if w.auth.Held() then [Unregister(AuthSlot), EndOk(AuthSlot)] else [EndError(AuthSlot)]
    case NameOwnerChanged(name, newOwner) =>
      (if w.enroll.Held() && w.enroll.owner == name && newOwner == "" then [Unregister(EnrollSlot)] else [])
      + (if w.auth.Held() && w.auth.owner == name && newOwner == "" then [Unregister(AuthSlot)] else [])
    case EnrollScan(result, done, percent) =>
      if !w.enroll.Held() then []
      else
        [EnrollScanDone(result, done, if percent >= 0 then Some(percent) else None)]
        + (if done then [Unregister(EnrollSlot)] else [])
    case AuthScan => if w.auth.Held() then [AuthScanDone] else []
    case Failed => Failures(w)
    case Forward(call) => [Forwarded(call)]
    case MalformedNameOwnerChanged => []
  }

  lemma NameLossSays(w: Wrapper, name: string)
    requires Coherent(w) && name != ""
    ensures Says(w, OnNameOwnerChanged(w, name, ""), Utters(w, NameOwnerChanged(name, "")))
  {
    hide VisiblePart;
    var w1 := if name == w.enroll.owner then Close(w, EnrollSlot) else w;
    if name == w.enroll.owner { CloseSays(w, EnrollSlot); }
    assert w1.auth == w.auth;
    if name == w1.auth.owner { CloseSays(w1, AuthSlot); }
    hide Close;
  }

  lemma StepUtters(w: Wrapper, e: Event)
    requires Coherent(w)
    ensures Says(w, Step(w, e), Utters(w, e))
  {
    hide VisiblePart;
    match e
    case StartEnroll(sender, accepted) =>
      if accepted { StartEnrollSays(w, sender); } else { SaySays(w, StartError(EnrollSlot)); }
    case StartAuth(sender, accepted) =>
      if accepted { StartAuthSays(w, sender); } else { SaySays(w, StartError(AuthSlot)); }
    case EnrollCancel =>
      if w.enroll.Held() { CloseSays(w, EnrollSlot); } else { SaySays(w, EndError(EnrollSlot)); }
    case AuthEnd =>
      if w.auth.Held() { CloseSays(w, AuthSlot); } else { SaySays(w, EndError(AuthSlot)); }
    case NameOwnerChanged(name, newOwner) =>
      if name != "" && newOwner == "" { NameLossSays(w, name); }
    case MalformedNameOwnerChanged =>
    case EnrollScan(result, done, percent) =>
      if w.enroll.Held() { ScanSays(w, result, done, percent); }
    case AuthScan =>
      SaySays(w, AuthScanDone);
    case Failed =>
      FailSays(w, EnrollSlot);
      FailSays(Fail(w, EnrollSlot), AuthSlot);
    case Forward(call) =>
      SaySays(w, Forwarded(call));
  }

  lemma ReactsLikeWrapper(w: Wrapper, e: Event)
    requires Coherent(w) && OneSession(w) && Fits(w, e)
    ensures Utters(w, e) == React(SessionOf(w), e).out
  {
  }

  lemma SessionAfter(w: Wrapper, e: Event)
    requires Coherent(w) && OneSession(w) && FromBus(e) && Fits(w, e)
    ensures SessionOf(Step(w, e)) == React(SessionOf(w), e).session
  {
    StepSlot(w, e, EnrollSlot);
    StepSlot(w, e, AuthSlot);
    hide Step;
  }

  lemma StepReacts(w: Wrapper, e: Event)
    requires Coherent(w) && OneSession(w) && FromBus(e) && Fits(w, e)
    ensures SessionOf(Step(w, e)) == React(SessionOf(w), e).session
    ensures Says(w, Step(w, e), React(SessionOf(w), e).out)
  {
    StepUtters(w, e);
    ReactsLikeWrapper(w, e);
    SessionAfter(w, e);
    hide *;
  }

  /** Under the contract the wrapper, with its two closures, two owners and two objects, is
      the three-state machine: the same session and, reply by reply and signal by signal, the
      same output, after every run. */
  lemma {:induction false} WrapperRefinesSessionMachine(es: seq<Event>)
    requires AllFromBus(es) && MeetsContract(es)
    ensures SessionOf(Run(es)) == ReactAll(es).session
    ensures VisiblePart(Run(es).log) == ReactAll(es).out
  {
    if es == [] {
    } else {
      var n := |es| - 1;
      var front := es[..n];
      assert forall i :: 0 <= i < n ==> front[..i] == es[..i];
      WrapperRefinesSessionMachine(front);
      RunCoherent(front);
      SlotsMatchMode(front);
      ContractIffFits(es);
      assert Fits(Run(es[..n]), es[n]);
      StepReacts(Run(front), es[n]);
    }
  }
}
