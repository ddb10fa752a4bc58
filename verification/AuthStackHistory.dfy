/** Who owns a session, read off the history of events alone. */
module AuthStackHistory {
  import opened AuthStackTypes
  import opened AuthStackWrapper

  /** e makes o the owner of slot k. */
  predicate Takes(k: SlotKind, o: string, e: Event)
  {
    (if k.EnrollSlot? then e.StartEnroll? else e.StartAuth?) && e.accepted && e.sender == o
  }

  /** e takes slot k away from o: it is ended by a client, completed, failed or handed over,
      or o has been dropped from the bus. */
  predicate Ousts(k: SlotKind, o: string, e: Event)
  {
    || (e.EnrollCancel? && k.EnrollSlot?)
    || (e.AuthEnd? && k.AuthSlot?)
    || (e.NameOwnerChanged? && e.name == o && e.newOwner == "")
    || (e.EnrollScan? && e.done && k.EnrollSlot?)
    || e.Failed?
    || (e.StartEnroll? && e.accepted && k.EnrollSlot?)
    || (e.StartAuth? && e.accepted && k.AuthSlot?)
  }

  /** Start i made o the owner and nothing since has taken the slot away. */
  ghost predicate OwnerSince(es: seq<Event>, k: SlotKind, o: string, i: int)
  {
    && 0 <= i < |es|
    && Takes(k, o, es[i])
    && forall j :: i < j < |es| ==> !Ousts(k, o, es[j])
  }

  lemma StepOwner(w: Wrapper, e: Event, k: SlotKind, o: string)
    requires Coherent(w) && FromBus(e) && o != ""
    ensures Takes(k, o, e) ==> Step(w, e).At(k).owner == o
    ensures !Takes(k, o, e) && Ousts(k, o, e) ==> Step(w, e).At(k).owner != o
    ensures !Takes(k, o, e) && !Ousts(k, o, e) ==> (Step(w, e).At(k).owner == o <==> w.At(k).owner == o)
  {
    hide Step;
    StepSlot(w, e, k);
  }

  /** After any run, o owns slot k iff o started the session and, since that start, o has not
      been dropped from the bus and the session was not ended, completed, failed or handed
      over. In particular the loss of any other name never ends it. */
  lemma {:induction false} OwnerIffHistory(es: seq<Event>, k: SlotKind, o: string)
    requires AllFromBus(es) && o != ""
    ensures Run(es).At(k).owner == o <==> exists i :: OwnerSince(es, k, o, i)
  {
    hide Step;
    hide Takes;
    hide Ousts;
    if es == [] {
    } else {
      var n := |es| - 1;
      var front, last := es[..n], es[n];
      OwnerIffHistory(front, k, o);
      RunCoherent(front);
      StepOwner(Run(front), last, k, o);
      if Takes(k, o, last) {
        assert OwnerSince(es, k, o, n);
      } else if !Ousts(k, o, last) {
        forall i
          ensures OwnerSince(front, k, o, i) <==> OwnerSince(es, k, o, i)
        {
          assert forall j :: 0 <= j < n ==> front[j] == es[j];
        }
      } else {
        forall i
          ensures !OwnerSince(es, k, o, i)
        {
          assert Ousts(k, o, es[n]);
        }
      }
    }
  }

  /** A session that is active has an owner, and it is the one history names. */
  lemma ActiveSessionHasLiveOwner(es: seq<Event>, k: SlotKind)
    requires AllFromBus(es) && Run(es).At(k).Held()
    ensures Run(es).At(k).owner != "" && exists i :: OwnerSince(es, k, Run(es).At(k).owner, i)
  {
    RunCoherent(es);
    OwnerIffHistory(es, k, Run(es).At(k).owner);
  }

  // ---------- calls that are handed to the manager do not touch the sessions ----------

  function SessionEvents(es: seq<Event>): (r: seq<Event>)
  {
    if es == [] then []
    else
      var rest := SessionEvents(es[..|es| - 1]);
      if es[|es| - 1].Forward? then rest else rest + [es[|es| - 1]]
  }

  function SessionLog(log: seq<Output>): (r: seq<Output>)
  {
    if log == [] then []
    else SessionLog(log[..|log| - 1]) + (if log[|log| - 1].Forwarded? then [] else [log[|log| - 1]])
  }

  lemma SessionLogSnoc(log: seq<Output>, o: Output)
    ensures SessionLog(log + [o]) == SessionLog(log) + if o.Forwarded? then [] else [o]
  {
    assert (log + [o])[..|log|] == log;
  }

  /** The same slots, and the same session outputs. */
  predicate SameSessions(a: Wrapper, b: Wrapper)
  {
    SameSlots(a, b) && SessionLog(a.log) == SessionLog(b.log)
  }

  lemma SaySame(a: Wrapper, b: Wrapper, o: Output)
    requires SameSessions(a, b)
    ensures SameSessions(a.Say(o), b.Say(o))
  {
    hide SessionLog;
    SessionLogSnoc(a.log, o);
    SessionLogSnoc(b.log, o);
  }

  lemma RunSame(a: Wrapper, b: Wrapper, k: SlotKind)
    requires SameSessions(a, b)
    ensures SameSessions(RunAndReset(a, k), RunAndReset(b, k))
    ensures SameSessions(Unexport(a, k), Unexport(b, k))
  {
    hide SessionLog;
    if a.At(k).Held() {
      SaySame(a, b, RunEnd(k, a.At(k).session.value));
    }
    SaySame(a, b, Unregister(k));
  }

  lemma AssignSame(a: Wrapper, b: Wrapper)
    requires SameSessions(a, b)
    ensures SameSessions(MoveAssign(a, EnrollSlot), MoveAssign(b, EnrollSlot))
    ensures SameSessions(ReleaseAndAssign(a, AuthSlot), ReleaseAndAssign(b, AuthSlot))
  {
    hide SessionLog;
    var e, f := Started(EnrollSlot, a.issued), Started(AuthSlot, a.issued);
    SaySame(a, b, e);
    RunSame(a.Say(e), b.Say(e), EnrollSlot);
    SaySame(a, b, f);
    if a.auth.Held() {
      SaySame(a.Say(f), b.Say(f), Released(AuthSlot, a.auth.session.value));
    }
  }

  lemma ExportSame(a: Wrapper, b: Wrapper, k: SlotKind)
    requires SameSessions(a, b)
    ensures SameSessions(Export(a, k), Export(b, k))
  {
    hide SessionLog;
    RunSame(a, b, k);
    SaySame(Unexport(a, k), Unexport(b, k), Register(k));
  }

  lemma DoSame(a: Wrapper, b: Wrapper, op: Op)
    requires SameSessions(a, b)
    ensures SameSessions(Do(a, op), Do(b, op))
  {
    hide SessionLog;
    match op
    case DoRun(k) => RunSame(a, b, k);
    case DoUnexport(k) => RunSame(a, b, k);
    case DoExport(k) => ExportSame(a, b, k);
    case DoSetOwner(_, _) =>
    case DoMoveAssign => AssignSame(a, b);
    case DoReleaseAndAssign => AssignSame(a, b);
    case DoSay(o) => SaySame(a, b, o);
  }

  /** Dropping every nonce, credential, legacy-record, login and logout event from any run
      leaves both slots and everything said about the sessions unchanged. */
  lemma {:induction false} ForwardedCallsDoNotMatter(es: seq<Event>)
    ensures SameSessions(Run(es), Run(SessionEvents(es)))
  {
    if es == [] {
    } else {
      var n := |es| - 1;
      var front, last := es[..n], es[n];
      ForwardedCallsDoNotMatter(front);
      var kept := SessionEvents(front);
      if last.Forward? {
        SessionLogSnoc(Run(front).log, Forwarded(last.call));
      } else {
        forall a: Wrapper, b: Wrapper, op: Op | SameSessions(a, b) && Plain(op)
          ensures SameSessions(Do(a, op), Do(b, op))
        {
          DoSame(a, b, op);
        }
        StepKeeps((a: Wrapper, b: Wrapper) => SameSessions(a, b), Run(front), Run(kept), last);
        assert (kept + [last])[..|kept|] == kept;
      }
    }
  }
}
