/** The session handlers of AuthStackManagerWrapper as functions on its two slots.
    Whatever the manager answers is part of the event, so every result here holds for
    any manager at all. */
module AuthStackWrapper {
  import opened Options
  import opened AuthStackTypes

  /** One session slot: the closure runner, the owner's bus name, and whether the session
      object is exported. */
  datatype Slot = Slot(session: Option<Token>, owner: string, exported: bool) {

    predicate Held() { session.Some? }

    predicate Coherent() {
      && (session.Some? <==> exported)
      && (exported <==> owner != "")
    }
  }

  const EMPTY_SLOT := Slot(None, "", false)

  datatype Wrapper = Wrapper(enroll: Slot, auth: Slot, issued: nat, log: seq<Output>) {

    function At(k: SlotKind): Slot { if k.EnrollSlot? then enroll else auth }

    function Put(k: SlotKind, s: Slot): Wrapper {
      if k.EnrollSlot? then this.(enroll := s) else this.(auth := s)
    }

    function Say(o: Output): Wrapper { this.(log := log + [o]) }
  }

  const INITIAL := Wrapper(EMPTY_SLOT, EMPTY_SLOT, 0, [])

  datatype Event =
    | StartEnroll(sender: string, accepted: bool)
    | StartAuth(sender: string, accepted: bool)
    | EnrollCancel
    | AuthEnd
    | NameOwnerChanged(name: string, newOwner: string)
    | MalformedNameOwnerChanged
    | EnrollScan(result: ScanResult, done: bool, percent: int)
    | AuthScan
    | Failed
    | Forward(call: ForwardedCall)

  /** The bus never delivers a call without a sender. */
  predicate FromBus(e: Event)
  {
    && (e.StartEnroll? ==> e.sender != "")
    && (e.StartAuth? ==> e.sender != "")
  }

  ghost predicate AllFromBus(es: seq<Event>)
  {
    forall i :: 0 <= i < |es| ==> FromBus(es[i])
  }

  // ---------- what the handlers are made of ----------

  /** ScopedClosureRunner::RunAndReset; also what its destructor does. */
  function RunAndReset(w: Wrapper, k: SlotKind): Wrapper
  {
    match w.At(k).session
    case None => w
    case Some(t) => w.Put(k, w.At(k).(session := None)).Say(RunEnd(k, t))
  }

  /** The slot's object is unregistered and destroyed. */
  function Unexport(w: Wrapper, k: SlotKind): Wrapper
  {
    if w.At(k).exported then w.Put(k, w.At(k).(exported := false)).Say(Unregister(k)) else w
  }

  /** A new object takes the place of whatever object was there. */
  function Export(w: Wrapper, k: SlotKind): Wrapper
  {
    var w1 := Unexport(w, k);
    w1.Put(k, w1.At(k).(exported := true)).Say(Register(k))
  }

  function SetOwner(w: Wrapper, k: SlotKind, owner: string): Wrapper
  {
    w.Put(k, w.At(k).(owner := owner))
  }

  /** The manager hands out a new closure, and it is move-assigned over the slot's runner,
      which runs the closure held there. */
  function MoveAssign(w: Wrapper, k: SlotKind): Wrapper
  {
    var w1 := RunAndReset(w.Say(Started(k, w.issued)), k);
    w1.Put(k, w1.At(k).(session := Some(w.issued))).(issued := w.issued + 1)
  }

  /** The same, but the closure held there is released first. */
  function ReleaseAndAssign(w: Wrapper, k: SlotKind): Wrapper
  {
    var w1 := w.Say(Started(k, w.issued));
    var w2 := match w.At(k).session case None => w1 case Some(t) => w1.Say(Released(k, t));
    w2.Put(k, w2.At(k).(session := Some(w.issued))).(issued := w.issued + 1)
  }

  /** Finalize*SessionObject dereferences the object, hence the precondition. */
  function Finalize(w: Wrapper, k: SlotKind): Wrapper
    requires w.At(k).exported
  {
    Unexport(SetOwner(w, k, ""), k)
  }

  // ---------- the handlers ----------

  function OnStartEnroll(w: Wrapper, sender: string, accepted: bool): Wrapper
  {
    if accepted
    then SetOwner(Export(MoveAssign(w, EnrollSlot), EnrollSlot).Say(SessionPath(EnrollSlot)), EnrollSlot, sender)
    else w.Say(StartError(EnrollSlot))
  }

  function OnStartAuth(w: Wrapper, sender: string, accepted: bool): Wrapper
  {
    if accepted then
      var w1 := ReleaseAndAssign(w, AuthSlot);
      var w2 := if w1.auth.exported then w1 else Export(w1, AuthSlot);
      SetOwner(w2.Say(SessionPath(AuthSlot)), AuthSlot, sender)
    else w.Say(StartError(AuthSlot))
  }

  /** Cancel, End and owner loss: the closure first, then the object. */
  function Close(w: Wrapper, k: SlotKind): Wrapper
  {
    var w1 := RunAndReset(w, k);
    if w1.At(k).exported then Finalize(w1, k) else w1
  }

  function OnSessionEnd(w: Wrapper, k: SlotKind): Wrapper
  {
    if w.At(k).session.None? then w.Say(EndError(k)) else Close(w, k).Say(EndOk(k))
  }

  function OnNameOwnerChanged(w: Wrapper, name: string, newOwner: string): Wrapper
  {
    if name == "" || newOwner != "" then w
    else
      var w1 := if name == w.enroll.owner then Close(w, EnrollSlot) else w;
      if name == w1.auth.owner then Close(w1, AuthSlot) else w1
  }

  function OnEnrollScanDone(w: Wrapper, result: ScanResult, done: bool, percent: int): Wrapper
  {
    if !w.enroll.exported then w
    else
      var w1 := w.Say(EnrollScanDone(result, done, if percent >= 0 then Some(percent) else None));
      if done then Finalize(RunAndReset(w1, EnrollSlot), EnrollSlot) else w1
  }

  function OnAuthScanDone(w: Wrapper): Wrapper
  {
    if w.auth.exported then w.Say(AuthScanDone) else w
  }

  /** A failed session: the signal and the object first, then the closure. */
  function Fail(w: Wrapper, k: SlotKind): Wrapper
  {
    var w1 := if w.At(k).exported then Finalize(w.Say(SessionFailed), k) else w;
    RunAndReset(w1, k)
  }

  function OnSessionFailed(w: Wrapper): Wrapper
  {
    Fail(Fail(w, EnrollSlot), AuthSlot)
  }

  function Step(w: Wrapper, e: Event): Wrapper
  {
    match e
    case StartEnroll(sender, accepted) => OnStartEnroll(w, sender, accepted)
    case StartAuth(sender, accepted) => OnStartAuth(w, sender, accepted)
    case EnrollCancel => OnSessionEnd(w, EnrollSlot)
    case AuthEnd => OnSessionEnd(w, AuthSlot)
    case NameOwnerChanged(name, newOwner) => OnNameOwnerChanged(w, name, newOwner)
    case MalformedNameOwnerChanged => w
    case EnrollScan(result, done, percent) => OnEnrollScanDone(w, result, done, percent)
    case AuthScan => OnAuthScanDone(w)
    case Failed => OnSessionFailed(w)
    case Forward(call) => w.Say(Forwarded(call))
  }

  function Run(es: seq<Event>): Wrapper
  {
    if es == [] then INITIAL else Step(Run(es[..|es| - 1]), es[|es| - 1])
  }

  /** Members are destroyed in reverse declaration order: the auth object, the auth runner,
      the enroll object, the enroll runner and, last of all, the manager. */
  function Destroy(w: Wrapper): Wrapper
  {
    DestroySlots(w).Say(ManagerFreed)
  }

  function DestroySlots(w: Wrapper): Wrapper
  {
    RunAndReset(Unexport(RunAndReset(Unexport(w, AuthSlot), AuthSlot), EnrollSlot), EnrollSlot)
  }

  // ---------- every slot is all there or all gone ----------

  predicate Coherent(w: Wrapper)
  {
    w.enroll.Coherent() && w.auth.Coherent()
  }

  /** e puts a new session into slot k. */
  predicate Opens(e: Event, k: SlotKind)
  {
    if k.EnrollSlot? then e.StartEnroll? && e.accepted else e.StartAuth? && e.accepted
  }

  /** e ends the session in slot k. */
  predicate Closes(w: Wrapper, e: Event, k: SlotKind)
  {
    w.At(k).Held() &&
    match e
    case EnrollCancel => k.EnrollSlot?
    case AuthEnd => k.AuthSlot?
    case NameOwnerChanged(name, newOwner) => name == w.At(k).owner && newOwner == ""
    case EnrollScan(_, done, _) => done && k.EnrollSlot?
    case Failed => true
    case _ => false
  }

  /** A slot is filled as a whole, emptied as a whole, or left alone, in whatever order the
      handler touches its three fields. */
  lemma StepSlot(w: Wrapper, e: Event, k: SlotKind)
    requires Coherent(w)
    ensures Step(w, e).At(k) == if Opens(e, k) then Slot(Some(w.issued), e.sender, true)
                                else if Closes(w, e, k) then EMPTY_SLOT
                                else w.At(k)
    ensures Step(w, e).issued == w.issued + if Opens(e, EnrollSlot) || Opens(e, AuthSlot) then 1 else 0
  {
  }

  lemma StepCoherent(w: Wrapper, e: Event)
    requires Coherent(w) && FromBus(e)
    ensures Coherent(Step(w, e))
  {
    hide Step;
    StepSlot(w, e, EnrollSlot);
    StepSlot(w, e, AuthSlot);
  }

  /** At every quiescent point of every run, and for each slot: the closure is held iff the
      object is exported iff there is an owner. */
  lemma {:induction false} RunCoherent(es: seq<Event>)
    requires AllFromBus(es)
    ensures Coherent(Run(es))
  {
    if es == [] {
    } else {
      RunCoherent(es[..|es| - 1]);
      StepCoherent(Run(es[..|es| - 1]), es[|es| - 1]);
    }
  }

  // ---------- an induction principle for what the log records ----------

  datatype Op =
    | DoRun(k: SlotKind)
    | DoUnexport(k: SlotKind)
    | DoExport(k: SlotKind)
    | DoSetOwner(k: SlotKind, owner: string)
    | DoMoveAssign
    | DoReleaseAndAssign
    | DoSay(o: Output)

  function Do(w: Wrapper, op: Op): Wrapper
  {
    match op
    case DoRun(k) => RunAndReset(w, k)
    case DoUnexport(k) => Unexport(w, k)
    case DoExport(k) => Export(w, k)
    case DoSetOwner(k, owner) => SetOwner(w, k, owner)
    case DoMoveAssign => MoveAssign(w, EnrollSlot)
    case DoReleaseAndAssign => ReleaseAndAssign(w, AuthSlot)
    case DoSay(o) => w.Say(o)
  }

  /** The handlers announce closures only through the operations that move them, and do not
      free the manager. */
  predicate Plain(op: Op)
  {
    op.DoSay? ==> !op.o.Started? && !op.o.RunEnd? && !op.o.Released? && !op.o.ManagerFreed?
  }

  /** The two wrappers are in the same position, whatever they have said so far. */
  predicate SameSlots(a: Wrapper, b: Wrapper)
  {
    a.enroll == b.enroll && a.auth == b.auth && a.issued == b.issued
  }

  /** The operations keep the relation R, which relates wrappers in the same position. */
  ghost predicate Kept(R: (Wrapper, Wrapper) -> bool)
  {
    && (forall a: Wrapper, b: Wrapper :: R(a, b) ==> SameSlots(a, b))
    && (forall a: Wrapper, b: Wrapper, op: Op :: R(a, b) && Plain(op) ==> R(Do(a, op), Do(b, op)))
  }

  lemma DoKeeps(R: (Wrapper, Wrapper) -> bool, a: Wrapper, b: Wrapper, op: Op)
    requires Kept(R) && R(a, b) && Plain(op)
    ensures R(Do(a, op), Do(b, op)) && SameSlots(Do(a, op), Do(b, op))
  {
  }

  lemma FinalizeKeeps(R: (Wrapper, Wrapper) -> bool, a: Wrapper, b: Wrapper, k: SlotKind)
    requires Kept(R) && R(a, b) && a.At(k).exported
    ensures b.At(k).exported && R(Finalize(a, k), Finalize(b, k))
  {
    assert SameSlots(a, b);
    DoKeeps(R, a, b, DoSetOwner(k, ""));
    DoKeeps(R, SetOwner(a, k, ""), SetOwner(b, k, ""), DoUnexport(k));
  }

  lemma CloseKeeps(R: (Wrapper, Wrapper) -> bool, a: Wrapper, b: Wrapper, k: SlotKind)
    requires Kept(R) && R(a, b)
    ensures R(Close(a, k), Close(b, k))
  {
    DoKeeps(R, a, b, DoRun(k));
    if a.At(k).exported {
      FinalizeKeeps(R, RunAndReset(a, k), RunAndReset(b, k), k);
    }
  }

  lemma EndKeeps(R: (Wrapper, Wrapper) -> bool, a: Wrapper, b: Wrapper, k: SlotKind)
    requires Kept(R) && R(a, b)
    ensures R(OnSessionEnd(a, k), OnSessionEnd(b, k))
  {
    CloseKeeps(R, a, b, k);
    DoKeeps(R, a, b, DoSay(EndError(k)));
    DoKeeps(R, Close(a, k), Close(b, k), DoSay(EndOk(k)));
  }

  lemma FailKeeps(R: (Wrapper, Wrapper) -> bool, a: Wrapper, b: Wrapper, k: SlotKind)
    requires Kept(R) && R(a, b)
    ensures R(Fail(a, k), Fail(b, k))
  {
    DoKeeps(R, a, b, DoRun(k));
    DoKeeps(R, a, b, DoSay(SessionFailed));
    var a1, b1 := a.Say(SessionFailed), b.Say(SessionFailed);
    if a.At(k).exported {
      FinalizeKeeps(R, a1, b1, k);
      DoKeeps(R, Finalize(a1, k), Finalize(b1, k), DoRun(k));
    }
  }

  lemma StartEnrollKeeps(R: (Wrapper, Wrapper) -> bool, a: Wrapper, b: Wrapper, sender: string)
    requires Kept(R) && R(a, b)
    ensures R(OnStartEnroll(a, sender, true), OnStartEnroll(b, sender, true))
  {
    var a1, b1 := Do(a, DoMoveAssign), Do(b, DoMoveAssign);
    var a2, b2 := Do(a1, DoExport(EnrollSlot)), Do(b1, DoExport(EnrollSlot));
    var a3, b3 := Do(a2, DoSay(SessionPath(EnrollSlot))), Do(b2, DoSay(SessionPath(EnrollSlot)));
    DoKeeps(R, a3, b3, DoSetOwner(EnrollSlot, sender));
  }

  lemma StartAuthKeeps(R: (Wrapper, Wrapper) -> bool, a: Wrapper, b: Wrapper, sender: string)
    requires Kept(R) && R(a, b)
    ensures R(OnStartAuth(a, sender, true), OnStartAuth(b, sender, true))
  {
    var a1, b1 := Do(a, DoReleaseAndAssign), Do(b, DoReleaseAndAssign);
    DoKeeps(R, a, b, DoReleaseAndAssign);
    var a2, b2 := Do(a1, DoExport(AuthSlot)), Do(b1, DoExport(AuthSlot));
    if a1.auth.exported {
      a2, b2 := a1, b1;
    }
    var a3, b3 := Do(a2, DoSay(SessionPath(AuthSlot))), Do(b2, DoSay(SessionPath(AuthSlot)));
    DoKeeps(R, a3, b3, DoSetOwner(AuthSlot, sender));
  }

  lemma ScanKeeps(R: (Wrapper, Wrapper) -> bool, a: Wrapper, b: Wrapper, result: ScanResult, done: bool, percent: int)
    requires Kept(R) && R(a, b)
    ensures R(OnEnrollScanDone(a, result, done, percent), OnEnrollScanDone(b, result, done, percent))
  {
    assert SameSlots(a, b);
    var o := EnrollScanDone(result, done, if percent >= 0 then Some(percent) else None);
    DoKeeps(R, a, b, DoSay(o));
    DoKeeps(R, a.Say(o), b.Say(o), DoRun(EnrollSlot));
    if a.enroll.exported {
      FinalizeKeeps(R, RunAndReset(a.Say(o), EnrollSlot), RunAndReset(b.Say(o), EnrollSlot), EnrollSlot);
    }
  }

  lemma NameKeeps(R: (Wrapper, Wrapper) -> bool, a: Wrapper, b: Wrapper, name: string, newOwner: string)
    requires Kept(R) && R(a, b)
    ensures R(OnNameOwnerChanged(a, name, newOwner), OnNameOwnerChanged(b, name, newOwner))
  {
    assert SameSlots(a, b);
    CloseKeeps(R, a, b, EnrollSlot);
    CloseKeeps(R, a, b, AuthSlot);
    CloseKeeps(R, Close(a, EnrollSlot), Close(b, EnrollSlot), AuthSlot);
  }

  lemma StepKeeps(R: (Wrapper, Wrapper) -> bool, a: Wrapper, b: Wrapper, e: Event)
    requires Kept(R) && R(a, b)
    ensures R(Step(a, e), Step(b, e))
  {
    match e
    case StartEnroll(sender, accepted) =>
      StartEnrollKeeps(R, a, b, sender);
      DoKeeps(R, a, b, DoSay(StartError(EnrollSlot)));
    case StartAuth(sender, accepted) =>
      StartAuthKeeps(R, a, b, sender);
      DoKeeps(R, a, b, DoSay(StartError(AuthSlot)));
    case EnrollCancel =>
      EndKeeps(R, a, b, EnrollSlot);
    case AuthEnd =>
      EndKeeps(R, a, b, AuthSlot);
    case NameOwnerChanged(name, newOwner) =>
      NameKeeps(R, a, b, name, newOwner);
    case MalformedNameOwnerChanged =>
    case EnrollScan(result, done, percent) =>
      ScanKeeps(R, a, b, result, done, percent);
    case AuthScan =>
      DoKeeps(R, a, b, DoSay(AuthScanDone));
    case Failed =>
      FailKeeps(R, a, b, EnrollSlot);
      FailKeeps(R, Fail(a, EnrollSlot), Fail(b, EnrollSlot), AuthSlot);
    case Forward(call) =>
      DoKeeps(R, a, b, DoSay(Forwarded(call)));
  }

  // ---------- the principle for a property of one wrapper ----------

  ghost predicate Invariant(P: Wrapper -> bool)
  {
    forall w: Wrapper, op: Op :: P(w) && Plain(op) ==> P(Do(w, op))
  }

  lemma StepInvariant(P: Wrapper -> bool, w: Wrapper, e: Event)
    requires Invariant(P) && P(w)
    ensures P(Step(w, e))
  {
    StepKeeps((a: Wrapper, b: Wrapper) => a == b && P(a), w, w, e);
  }

  lemma DestroySlotsInvariant(P: Wrapper -> bool, w: Wrapper)
    requires Invariant(P) && P(w)
    ensures P(DestroySlots(w))
  {
    var w1 := Do(w, DoUnexport(AuthSlot));
    var w2 := Do(w1, DoRun(AuthSlot));
    var w3 := Do(w2, DoUnexport(EnrollSlot));
    assert P(Do(w3, DoRun(EnrollSlot)));
  }

  lemma {:induction false} RunInvariant(P: Wrapper -> bool, es: seq<Event>)
    requires Invariant(P) && P(INITIAL)
    ensures P(Run(es))
  {
    if es == [] {
    } else {
      RunInvariant(P, es[..|es| - 1]);
      StepInvariant(P, Run(es[..|es| - 1]), es[|es| - 1]);
    }
  }
}
