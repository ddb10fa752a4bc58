/** Session closures are conserved over every run of the wrapper, whatever the manager answers. */
module AuthStackLedger {
  import opened Options
  import opened AuthStackTypes
  import opened AuthStackWrapper
  import opened Counting

  // ---------- weighing a log ----------

  function Total(f: Output -> int, log: seq<Output>): int
  {
    if log == [] then 0 else Total(f, log[..|log| - 1]) + f(log[|log| - 1])
  }

  function RunGain(f: Output -> int, s: Slot, k: SlotKind): int
  {
    if s.Held() then f(RunEnd(k, s.session.value)) else 0
  }

  function UnexportGain(f: Output -> int, s: Slot, k: SlotKind): int
  {
    if s.exported then f(Unregister(k)) else 0
  }

  /** What one operation adds to the total. */
  function Gain(f: Output -> int, w: Wrapper, op: Op): int
  {
    match op
    case DoRun(k) => RunGain(f, w.At(k), k)
    case DoUnexport(k) => UnexportGain(f, w.At(k), k)
    case DoExport(k) => UnexportGain(f, w.At(k), k) + f(Register(k))
    case DoSetOwner(_, _) => 0
    case DoMoveAssign => f(Started(EnrollSlot, w.issued)) + RunGain(f, w.enroll, EnrollSlot)
    case DoReleaseAndAssign =>
      f(Started(AuthSlot, w.issued)) + if w.auth.Held() then f(Released(AuthSlot, w.auth.session.value)) else 0
    case DoSay(o) => f(o)
  }

  lemma SayTotal(f: Output -> int, w: Wrapper, o: Output)
    ensures Total(f, w.Say(o).log) == Total(f, w.log) + f(o)
  {
    assert (w.log + [o])[..|w.log|] == w.log;
  }

  lemma RunTotal(f: Output -> int, w: Wrapper, k: SlotKind)
    ensures Total(f, RunAndReset(w, k).log) == Total(f, w.log) + RunGain(f, w.At(k), k)
  {
    hide Total;
    if w.At(k).Held() {
      SayTotal(f, w, RunEnd(k, w.At(k).session.value));
    }
  }

  lemma DoTotal(f: Output -> int, w: Wrapper, op: Op)
    ensures Total(f, Do(w, op).log) == Total(f, w.log) + Gain(f, w, op)
  {
    hide Total;
    match op
    case DoRun(k) =>
      RunTotal(f, w, k);
    case DoUnexport(k) =>
      SayTotal(f, w, Unregister(k));
    case DoExport(k) =>
      SayTotal(f, w, Unregister(k));
      SayTotal(f, Unexport(w, k), Register(k));
    case DoSetOwner(_, _) =>
    case DoMoveAssign =>
      SayTotal(f, w, Started(EnrollSlot, w.issued));
      RunTotal(f, w.Say(Started(EnrollSlot, w.issued)), EnrollSlot);
    case DoReleaseAndAssign =>
      SayTotal(f, w, Started(AuthSlot, w.issued));
      if w.auth.Held() {
        SayTotal(f, w.Say(Started(AuthSlot, w.issued)), Released(AuthSlot, w.auth.session.value));
      }
    case DoSay(o) =>
      SayTotal(f, w, o);
  }

  // ---------- the slot holds exactly what the log says is outstanding ----------

  function HeldCount(s: Slot, t: Token): nat
  {
    if s.session == Some(t) then 1 else 0
  }

  function Outstanding(k: SlotKind, t: Token): Output -> int
  {
    o => if o == Started(k, t) then 1 else if o == RunEnd(k, t) || o == Released(k, t) then -1 else 0
  }

  lemma {:induction false} OutstandingCounts(log: seq<Output>, k: SlotKind, t: Token)
    ensures Total(Outstanding(k, t), log)
            == Count(log, Started(k, t)) - Count(log, RunEnd(k, t)) - Count(log, Released(k, t))
  {
    if log == [] {
    } else {
      OutstandingCounts(log[..|log| - 1], k, t);
    }
  }

  predicate Balanced(w: Wrapper, k: SlotKind, t: Token)
  {
    Total(Outstanding(k, t), w.log) == HeldCount(w.At(k), t)
  }

  lemma RunGainIs(s: Slot, at: SlotKind, k: SlotKind, t: Token)
    ensures RunGain(Outstanding(k, t), s, at) == if at == k then 0 - HeldCount(s, t) else 0
    ensures UnexportGain(Outstanding(k, t), s, at) == 0
  {
  }

  /** What op adds to the outstanding count is what it adds to the slot. */
  predicate GainIsChange(w: Wrapper, op: Op, k: SlotKind, t: Token)
  {
    Gain(Outstanding(k, t), w, op) == HeldCount(Do(w, op).At(k), t) - HeldCount(w.At(k), t)
  }

  lemma MoveGain(w: Wrapper, k: SlotKind, t: Token)
    ensures GainIsChange(w, DoMoveAssign, k, t)
  {
    RunGainIs(w.enroll, EnrollSlot, k, t);
    hide RunGain;
  }

  lemma ReleaseGain(w: Wrapper, k: SlotKind, t: Token)
    ensures GainIsChange(w, DoReleaseAndAssign, k, t)
  {
  }

  lemma SlotGain(w: Wrapper, op: Op, k: SlotKind, t: Token)
    requires op.DoRun? || op.DoUnexport? || op.DoExport? || op.DoSetOwner?
    ensures GainIsChange(w, op, k, t)
  {
    RunGainIs(w.At(op.k), op.k, k, t);
    hide RunGain;
    hide UnexportGain;
  }

  lemma GainIsHeldChange(w: Wrapper, op: Op, k: SlotKind, t: Token)
    requires Plain(op)
    ensures GainIsChange(w, op, k, t)
  {
    if op.DoSay? {
    } else {
      hide GainIsChange;
      if op.DoMoveAssign? {
        MoveGain(w, k, t);
      } else if op.DoReleaseAndAssign? {
        ReleaseGain(w, k, t);
      } else {
        SlotGain(w, op, k, t);
      }
    }
  }

  lemma DoBalanced(w: Wrapper, op: Op, k: SlotKind, t: Token)
    requires Balanced(w, k, t) && Plain(op)
    ensures Balanced(Do(w, op), k, t)
  {
    hide Total;
    GainIsHeldChange(w, op, k, t);
    DoTotal(Outstanding(k, t), w, op);
  }

  // ---------- every issue number below the counter was issued once, to one slot ----------

  function Issues(t: Token): Output -> int
  {
    (o: Output) => if o.Started? && o.token == t then 1 else 0
  }

  lemma {:induction false} IssuesCounts(log: seq<Output>, t: Token)
    ensures Total(Issues(t), log) == Count(log, Started(EnrollSlot, t)) + Count(log, Started(AuthSlot, t))
  {
    if log == [] {
    } else {
      IssuesCounts(log[..|log| - 1], t);
      var last := log[|log| - 1];
      assert last.Started? ==> last.slot.EnrollSlot? || last.slot.AuthSlot?;
    }
  }

  predicate IssuedOnce(w: Wrapper, t: Token)
  {
    Total(Issues(t), w.log) == if t < w.issued then 1 else 0
  }

  lemma DoIssuedOnce(w: Wrapper, op: Op, t: Token)
    requires IssuedOnce(w, t) && Plain(op)
    ensures IssuedOnce(Do(w, op), t)
  {
    hide Total;
    DoTotal(Issues(t), w, op);
  }

  // ---------- only a superseded auth closure is released ----------

  ghost predicate Superseded(log: seq<Output>, t: Token)
  {
    exists later: Token :: later > t && Started(AuthSlot, later) in log
  }

  ghost predicate ReleasedWhenSuperseded(w: Wrapper)
  {
    && (w.enroll.Held() ==> w.enroll.session.value < w.issued)
    && (w.auth.Held() ==> w.auth.session.value < w.issued)
    && (forall k, t :: Released(k, t) in w.log ==> k.AuthSlot? && Superseded(w.log, t))
  }

  lemma DoReleasedWhenSuperseded(w: Wrapper, op: Op)
    requires ReleasedWhenSuperseded(w) && Plain(op)
    ensures ReleasedWhenSuperseded(Do(w, op))
  {
    var w' := Do(w, op);
    assert forall o :: o in w.log ==> o in w'.log;
    forall k, t | Released(k, t) in w'.log
      ensures k.AuthSlot? && Superseded(w'.log, t)
    {
      if Released(k, t) in w.log {
        var later: Token :| later > t && Started(AuthSlot, later) in w.log;
        assert Started(AuthSlot, later) in w'.log;
      } else {
        assert Started(AuthSlot, w.issued) in w'.log;
      }
    }
  }

  // ---------- the theorems ----------

  lemma RunBalanced(es: seq<Event>, k: SlotKind, t: Token)
    ensures Balanced(Run(es), k, t) && Balanced(DestroySlots(Run(es)), k, t)
  {
    forall w: Wrapper, op: Op | Balanced(w, k, t) && Plain(op)
      ensures Balanced(Do(w, op), k, t)
    {
      DoBalanced(w, op, k, t);
    }
    RunInvariant(w => Balanced(w, k, t), es);
    DestroySlotsInvariant(w => Balanced(w, k, t), Run(es));
  }

  lemma RunIssuedOnce(es: seq<Event>, t: Token)
    ensures IssuedOnce(Run(es), t) && IssuedOnce(DestroySlots(Run(es)), t)
  {
    forall w: Wrapper, op: Op | IssuedOnce(w, t) && Plain(op)
      ensures IssuedOnce(Do(w, op), t)
    {
      DoIssuedOnce(w, op, t);
    }
    RunInvariant(w => IssuedOnce(w, t), es);
    DestroySlotsInvariant(w => IssuedOnce(w, t), Run(es));
  }

  lemma RunReleasedWhenSuperseded(es: seq<Event>)
    ensures ReleasedWhenSuperseded(Run(es))
  {
    forall w: Wrapper, op: Op | ReleasedWhenSuperseded(w) && Plain(op)
      ensures ReleasedWhenSuperseded(Do(w, op))
    {
      DoReleasedWhenSuperseded(w, op);
    }
    RunInvariant(w => ReleasedWhenSuperseded(w), es);
  }

  /** Each closure the manager ever handed out went to one slot and is held there, or has been
      run exactly once, or has been released exactly once; an enroll closure is never
      released, and an auth closure only because a later auth start succeeded. */
  lemma ClosuresConserved(es: seq<Event>, k: SlotKind, t: Token)
    ensures var w := Run(es);
            && Count(w.log, Started(EnrollSlot, t)) + Count(w.log, Started(AuthSlot, t)) == (if t < w.issued then 1 else 0)
            && Count(w.log, Started(k, t)) == HeldCount(w.At(k), t) + Count(w.log, RunEnd(k, t)) + Count(w.log, Released(k, t))
            && (Released(k, t) in w.log ==> k.AuthSlot? && Superseded(w.log, t))
  {
    RunBalanced(es, k, t);
    RunIssuedOnce(es, t);
    OutstandingCounts(Run(es).log, k, t);
    IssuesCounts(Run(es).log, t);
    RunReleasedWhenSuperseded(es);
  }

  lemma NeverFreedEarly(es: seq<Event>)
    ensures ManagerFreed !in DestroySlots(Run(es)).log
  {
    var P := (w: Wrapper) => ManagerFreed !in w.log;
    RunInvariant(P, es);
    DestroySlotsInvariant(P, Run(es));
  }

  /** Destroying the wrapper after any run leaves no closure and no object and frees the manager
      last of all: by then every account is settled, each closure ever handed out has been run
      or released exactly once. */
  lemma DestroySettlesEverything(es: seq<Event>, k: SlotKind, t: Token)
    ensures var w := Destroy(Run(es));
            && w.enroll.session.None? && w.auth.session.None? && !w.enroll.exported && !w.auth.exported
    ensures var log := Destroy(Run(es)).log;
            var before := log[..|log| - 1];
            && log[|log| - 1] == ManagerFreed && ManagerFreed !in before
            && Count(before, Started(EnrollSlot, t)) + Count(before, Started(AuthSlot, t))
               == (if t < Run(es).issued then 1 else 0)
            && Count(before, RunEnd(k, t)) + Count(before, Released(k, t)) == Count(before, Started(k, t))
  {
    NeverFreedEarly(es);
    RunBalanced(es, k, t);
    RunIssuedOnce(es, t);
    var before := DestroySlots(Run(es)).log;
    assert Destroy(Run(es)).log[..|before|] == before;
    OutstandingCounts(before, k, t);
    IssuesCounts(before, t);
  }
}
