/** The records and the sensor's memory added to the system: whether the templates in the sensor
    are the loaded user's records, which record a match names, and whose template becomes a
    credential. */
module AuthStackTemplates {
  import opened Options
  import opened CrosFpManager
  import opened AuthStackSystem
  import opened AuthStackUsers
  import opened AuthStackAccounts
  import Overlap = AuthStackOverlap
  import Sensing = AuthStackSensor
  import R = CrosFpRecords

  /** The templates in the sensor, by index: the record each is of, or None if it was captured or
      migrated there and no credential made of it. */
  type Memory = seq<Option<R.Key>>

  /** The system, the records, the sensor's memory, and the record that the last match was with. */
  datatype Full = Full(s: System, r: R.Records, mcu: Memory, matched: Option<R.Key>)

  /** What the disk and the sensor do in one turn: what reading a user's files yields, the id of
      the record to delete or create and its template, whether the sensor forgets its templates
      when told to, how many templates it takes, and whether the disk writes and deletes. */
  datatype Details = Details(
    listing: seq<R.Listed>, id: string, tmpl: string, clears: bool, taken: nat, writes: bool, deletes: bool)

  function Start(disk: map<R.Key, R.File>): Full
  {
    Full(START, R.Records(disk, false, map[], None, []), [], None)
  }

  // ---------- one turn ----------

  function Keys(records: seq<R.Record>): (r: Memory)
    ensures |r| == |records| && forall i :: 0 <= i < |r| ==> r[i] == Some(R.KeyOf(records[i]))
  {
    seq(|records|, i requires 0 <= i < |records| => Some(R.KeyOf(records[i])))
  }

  /** The memory after the templates have been sent, as far as the sensor takes them. */
  function Uploaded(mcu: Memory, records: seq<R.Record>, d: Details): Memory
  {
    (if d.clears then [] else mcu) + if d.taken < |records| then Keys(records)[..d.taken] else Keys(records)
  }

  /** The user that h loads, if it gets that far. */
  function LoadedBy(m: Manager, h: Happening): Option<string>
  {
    match h
    case LoggedIn(user, _) => if MayLoad(m, user) then Some(user) else None
    case CallStartAuth(_, req, _) => if CanStart(m.state) && MayLoad(m, req.user) then Some(req.user) else None
    case _ => None
  }

  /** h deletes a record of the loaded user. */
  predicate Erases(m: Manager, h: Happening)
  {
    h.CallDeleteCredential? && m.user == Some(h.user) && h.a.hasRecord && h.a.deleteRecord
  }

  /** h leaves a new template in the sensor. */
  predicate Captures(m: Manager, h: Happening)
  {
    || (h.Sensor? && Read(m, h.ev, h.a).Completed?)
    || (h.CallEnrollLegacyTemplate? && MigrationPasses(m, h.a))
  }

  predicate Creates(m: Manager, h: Happening)
  {
    h.CallCreateCredential? && CreateCredential(m, h.a).reply.Success?
  }

  /** The template at the last index is a new one. */
  predicate Fresh(mcu: Memory)
  {
    mcu != [] && mcu[|mcu| - 1].None?
  }

  function NewRecord(m: Manager, d: Details): R.Record
  {
    R.Record(d.id, if m.user.Some? then m.user.value else "", d.tmpl)
  }

  ghost predicate Sound(f: Full)
  {
    InOrder(f.s) && R.InSync(f.r) && f.s.m.user == f.r.user
  }

  ghost function RecordsAfter(f: Full, h: Happening, d: Details): R.Records
    requires R.InSync(f.r)
  {
    var m := f.s.m;
    if LoadedBy(m, h).Some? then R.LoadUser(R.UnloadUser(f.r), LoadedBy(m, h).value, d.listing).r
    else if h.CallDeleteCredential? then R.Deletion(f.r, h.user, d.id, d.deletes).r
    else if Creates(m, h) then R.CreateRecord(f.r, NewRecord(m, d), d.writes).r
    else f.r
  }

  ghost function MemoryAfter(f: Full, h: Happening, d: Details): Memory
    requires R.InSync(f.r)
  {
    var m := f.s.m;
    if LoadedBy(m, h).Some? || Erases(m, h) then Uploaded(f.mcu, RecordsAfter(f, h, d).loaded, d)
    else if Captures(m, h) then f.mcu + [None]
    else if Creates(m, h) && f.mcu != [] then f.mcu[..|f.mcu| - 1] + [Some(R.KeyOf(NewRecord(m, d)))]
    else f.mcu
  }

  function MatchedAfter(f: Full, h: Happening): Option<R.Key>
  {
    if h.Sensor? && Read(f.s.m, h.ev, h.a).Matched? then
      if h.ev.matchIndex < |f.mcu| then f.mcu[h.ev.matchIndex] else None
    else f.matched
  }

  ghost function Turn(f: Full, h: Happening, d: Details): Full
    requires R.InSync(f.r)
  {
    Full(Step(f.s, h), RecordsAfter(f, h, d), MemoryAfter(f, h, d), MatchedAfter(f, h))
  }

  /** The answers in h are those that the records and the sensor give. */
  ghost predicate Consistent(f: Full, h: Happening, d: Details)
    requires R.InSync(f.r)
  {
    var m := f.s.m;
    match h
    case LoggedIn(user, a) =>
      MayLoad(m, user) ==>
        R.ListsAll(f.r.disk, user, d.listing) && a.loadUser && a.upload == (d.taken >= |R.ValidOnes(d.listing)|)
    case CallStartAuth(_, req, a) =>
      CanStart(m.state) && MayLoad(m, req.user) ==>
        R.ListsAll(f.r.disk, req.user, d.listing) && a.loadUser && a.upload == (d.taken >= |R.ValidOnes(d.listing)|)
    case CallDeleteCredential(user, a) =>
      && a.hasRecord == R.HasId(f.r.loaded, d.id)
      && a.deleteRecord == R.Deletion(f.r, user, d.id, d.deletes).ok
      && (Erases(m, h) ==> a.upload == (d.taken >= |RecordsAfter(f, h, d).loaded|))
    case CallCreateCredential(a) =>
      && (a.getTemplate ==> Fresh(f.mcu))
      && a.createRecord == R.CreateRecord(f.r, NewRecord(m, d), d.writes).ok
    case CallAuthenticateCredential(a) =>
      m.pendingMatch.Some? ==> a.metadata == (m.pendingMatch.value.matchIndex < |f.r.loaded|)
    case _ => true
  }

  lemma UserAfter(f: Full, h: Happening, d: Details)
    requires Sound(f) && Consistent(f, h, d)
    ensures ManagerAfter(f.s, h).user == if LoadedBy(f.s.m, h).Some? then LoadedBy(f.s.m, h) else f.s.m.user
  {
    if h.LoggedIn? {
      LoadUserState(f.s.m, h.user, true, h.a);
      LoadUserResult(f.s.m, h.user, true, h.a);
    }
    if h.CallStartAuth? {
      LoadUserState(f.s.m, h.req.user, false, h.a);
      LoadUserResult(f.s.m, h.req.user, false, h.a);
    }
    hide LoadUser;
    hide InOrder;
    hide R.InSync;
    hide MatchReply;
  }

  lemma RecordsAfterInSync(f: Full, h: Happening, d: Details)
    requires Sound(f) && Consistent(f, h, d)
    ensures R.InSync(RecordsAfter(f, h, d))
    ensures RecordsAfter(f, h, d).user == if LoadedBy(f.s.m, h).Some? then LoadedBy(f.s.m, h) else f.r.user
  {
    hide InOrder;
    hide R.InSync;
    if LoadedBy(f.s.m, h).Some? {
      R.UnloadInSync(f.r);
      R.LoadInSync(R.UnloadUser(f.r), LoadedBy(f.s.m, h).value, d.listing);
    } else if h.CallDeleteCredential? {
      if f.r.user == Some(h.user) {
        R.DeleteInSync(f.r, d.id, d.deletes);
      } else {
        R.DeleteOtherInSync(f.r, h.user, d.id, d.deletes);
      }
    } else if Creates(f.s.m, h) {
      R.CreateInSync(f.r, NewRecord(f.s.m, d), d.writes);
    }
  }

  lemma TurnSound(f: Full, h: Happening, d: Details)
    requires Sound(f) && Consistent(f, h, d) && FromBus(h)
    ensures Sound(Turn(f, h, d)) && Turn(f, h, d).s.m == ManagerAfter(f.s, h)
  {
    StepEffect(f.s, h);
    StepInOrder(f.s, h);
    UserAfter(f, h, d);
    RecordsAfterInSync(f, h, d);
    hide Step;
    hide InOrder;
    hide R.InSync;
    hide RecordsAfter;
    hide MemoryAfter;
    hide ManagerAfter;
  }

  // ---------- runs ----------

  datatype Move = Move(h: Happening, d: Details)

  lemma StartSound(disk: map<R.Key, R.File>)
    ensures Sound(Start(disk))
  {
    StartInOrder();
  }

  /** Each move's answers are those that the records and the sensor give. */
  ghost predicate Possible(disk: map<R.Key, R.File>, ms: seq<Move>)
    decreases |ms|, 0
  {
    ms == [] ||
    var front, last := ms[..|ms| - 1], ms[|ms| - 1];
    Possible(disk, front) && FromBus(last.h) && Consistent(RunFull(disk, front), last.h, last.d)
  }

  ghost function RunFull(disk: map<R.Key, R.File>, ms: seq<Move>): (f: Full)
    requires Possible(disk, ms)
    ensures Sound(f)
    decreases |ms|, 1
  {
    if ms == [] then
      StartSound(disk);
      Start(disk)
    else
      var last := ms[|ms| - 1];
      var before := RunFull(disk, ms[..|ms| - 1]);
      TurnSound(before, last.h, last.d);
      Turn(before, last.h, last.d)
  }

  function Happenings(ms: seq<Move>): seq<Happening>
  {
    seq(|ms|, i requires 0 <= i < |ms| => ms[i].h)
  }

  /** A run with records and sensor memory is a run of the system: all that holds of those holds
      here. */
  lemma {:induction false} FullRunIsRun(disk: map<R.Key, R.File>, ms: seq<Move>)
    requires Possible(disk, ms)
    ensures AllFromBus(Happenings(ms)) && RunFull(disk, ms).s == Run(Happenings(ms))
  {
    hide Step;
    hide Consistent;
    hide RecordsAfter;
    hide MemoryAfter;
    if ms == [] {
      assert Happenings(ms) == [];
    } else {
      var n := |ms| - 1;
      FullRunIsRun(disk, ms[..n]);
      assert Happenings(ms)[..n] == Happenings(ms[..n]);
      var hs := Happenings(ms);
      assert forall i :: 0 <= i < n ==> hs[i] == Happenings(ms[..n])[i];
    }
  }

  ghost predicate AlwaysFull(P: Full -> bool, disk: map<R.Key, R.File>, ms: seq<Move>)
    requires Possible(disk, ms)
    decreases |ms|
  {
    P(RunFull(disk, ms)) && (ms == [] || AlwaysFull(P, disk, ms[..|ms| - 1]))
  }

  ghost predicate NeverFull(breaks: (Full, Happening, Details) -> bool, disk: map<R.Key, R.File>, ms: seq<Move>)
    requires Possible(disk, ms)
    decreases |ms|
  {
    ms == [] ||
    var front, last := ms[..|ms| - 1], ms[|ms| - 1];
    !breaks(RunFull(disk, front), last.h, last.d) && NeverFull(breaks, disk, front)
  }

  ghost predicate Breaks(P: Full -> bool, breaks: (Full, Happening, Details) -> bool)
  {
    forall f: Full, h: Happening, d: Details :: Sound(f) && FromBus(h) && Consistent(f, h, d) && P(f) ==>
      (P(Turn(f, h, d)) <==> !breaks(f, h, d))
  }

  lemma {:induction false} AlwaysIffNever(
    P: Full -> bool, breaks: (Full, Happening, Details) -> bool, disk: map<R.Key, R.File>, ms: seq<Move>)
    requires Possible(disk, ms) && P(Start(disk)) && Breaks(P, breaks)
    ensures AlwaysFull(P, disk, ms) <==> NeverFull(breaks, disk, ms)
  {
    hide Consistent;
    hide Turn;
    hide InOrder;
    hide R.InSync;
    if ms == [] {
    } else {
      var front, last := ms[..|ms| - 1], ms[|ms| - 1];
      AlwaysIffNever(P, breaks, disk, front);
      if AlwaysFull(P, disk, front) {
        assert P(RunFull(disk, front));
        assert P(Turn(RunFull(disk, front), last.h, last.d)) <==> !breaks(RunFull(disk, front), last.h, last.d);
      }
    }
  }

  // ---------- the sensor holds the loaded user's records, in order ----------

  /** Unless the manager is locked, the templates in the sensor are the loaded user's records in
      order, with one new template behind them if a credential can be made of it. */
  predicate Aligned(f: Full)
  {
    f.s.m.state.KLocked? || f.mcu == Keys(f.r.loaded) || HasNew(f)
  }

  predicate HasNew(f: Full)
  {
    f.s.m.state.KEnrollDone? && f.mcu == Keys(f.r.loaded) + [None]
  }

  /** A new template is abandoned, by a start that passes every check or another migration; or
      templates are sent to a sensor that did not forget the old ones; or a session comes back
      from a lock with templates missing. */
  predicate Misaligns(f: Full, h: Happening, d: Details)
  {
    var m, listed := f.s.m, R.ValidOnes(d.listing);
    match h
    case CallStartEnroll(_, a) => HasNew(f) && EnrollReachesSensor(m, a) && a.setMode
    case CallStartAuth(_, req, a) =>
      if LoadedBy(m, h).Some? then
        && a.upload && !d.clears && f.mcu != []
        && !(m.state.KEnrollDone? && !AuthReachesSensor(a) && f.mcu == [None] && listed == [])
      else m.user == Some(req.user) && HasNew(f) && AuthReachesSensor(a)
    case CallEnrollLegacyTemplate(a) => HasNew(f) && MigrationPasses(m, a)
    case CallDeleteCredential(_, a) => Erases(m, h) && a.upload && !d.clears && !m.state.KLocked?
    case LoggedIn(_, a) =>
      && LoadedBy(m, h).Some? && a.upload && !d.clears && f.mcu != [] && !m.state.KLocked?
      && !(m.state.KEnrollDone? && f.mcu == [None] && listed == [])
    case Sensor(ev, a) =>
      var r := Read(m, ev, a);
      m.state.KLocked? && (r.Completed? || r.Matched?) && f.mcu != Keys(f.r.loaded)
    case _ => false
  }

  lemma SentOnTop(mcu: Memory, records: seq<R.Record>)
    ensures mcu + Keys(records) == Keys(records) <==> mcu == []
    ensures mcu + Keys(records) == Keys(records) + [None] <==> mcu == [None] && records == []
  {
    var a, b := mcu + Keys(records), Keys(records) + [None];
    if mcu == [] {
      assert a == Keys(records);
    } else {
      assert |a| > |Keys(records)|;
    }
    if records == [] {
      assert a == mcu && b == [None];
    } else {
      assert a[|a| - 1] == Keys(records)[|records| - 1] && b[|b| - 1] == None;
    }
  }

  /** What h makes of the state when it loads a user whose files can be read. */
  lemma StateAfterLoad(f: Full, h: Happening, d: Details)
    requires Sound(f) && Consistent(f, h, d) && LoadedBy(f.s.m, h).Some?
    ensures ManagerAfter(f.s, h).state
            == if !h.a.upload then KLocked
               else if h.LoggedIn? then f.s.m.state
               else if f.s.m.state.KWaitForFingerUp? then KAuthWaitForFingerUp
               else if AuthReachesSensor(h.a) then KAuth
               else f.s.m.state
  {
    hide InOrder;
    hide R.InSync;
    if h.LoggedIn? {
      LoadUserResult(f.s.m, h.user, true, h.a);
    } else {
      LoadUserState(f.s.m, h.req.user, false, h.a);
      LoadUserResult(f.s.m, h.req.user, false, h.a);
    }
    hide LoadUser;
  }

  lemma LoadRecords(f: Full, h: Happening, d: Details)
    requires R.InSync(f.r) && LoadedBy(f.s.m, h).Some?
    ensures RecordsAfter(f, h, d).loaded == R.ValidOnes(d.listing) && RecordsAfter(f, h, d).disk == f.r.disk
  {
    assert [] + R.ValidOnes(d.listing) == R.ValidOnes(d.listing);
  }

  /** A user is loaded whose templates the sensor does not take: the manager locks, and the sensor,
      if it forgot the old ones, holds the first records and not all. */
  lemma LockLeavesMissing(f: Full, h: Happening, d: Details)
    requires Sound(f) && FromBus(h) && Consistent(f, h, d) && LoadedBy(f.s.m, h).Some? && !h.a.upload
    ensures var g := Turn(f, h, d);
            g.s.m.state.KLocked? && (d.clears ==> g.mcu < Keys(g.r.loaded) && |g.mcu| == d.taken)
  {
    TurnSound(f, h, d);
    StateAfterLoad(f, h, d);
    LoadRecords(f, h, d);
    assert d.taken < |R.ValidOnes(d.listing)|;
    hide Sound;
    hide Consistent;
    hide ManagerAfter;
    hide Step;
    hide RecordsAfter;
    assert [] + Keys(R.ValidOnes(d.listing))[..d.taken] == Keys(R.ValidOnes(d.listing))[..d.taken];
  }

  lemma LoadAligns(f: Full, h: Happening, d: Details)
    requires Sound(f) && FromBus(h) && Consistent(f, h, d) && LoadedBy(f.s.m, h).Some?
    ensures Aligned(Turn(f, h, d)) <==> !Misaligns(f, h, d)
  {
    TurnSound(f, h, d);
    StateAfterLoad(f, h, d);
    var listed := R.ValidOnes(d.listing);
    SentOnTop(f.mcu, listed);
    LoadRecords(f, h, d);
    assert [] + Keys(listed) == Keys(listed);
    assert h.a.upload ==> MemoryAfter(f, h, d) == (if d.clears then [] else f.mcu) + Keys(listed);
    hide Sound;
    hide Consistent;
    hide ManagerAfter;
    hide Step;
    hide RecordsAfter;
    hide MemoryAfter;
    assert Keys(listed) != Keys(listed) + [None];
  }

  lemma ErasureAligns(f: Full, h: Happening, d: Details)
    requires Sound(f) && FromBus(h) && Consistent(f, h, d) && Erases(f.s.m, h) && Aligned(f)
    ensures Aligned(Turn(f, h, d)) <==> !Misaligns(f, h, d)
  {
    TurnSound(f, h, d);
    var left := RecordsAfter(f, h, d).loaded;
    SentOnTop(f.mcu, left);
    assert [] + Keys(left) == Keys(left);
    assert f.s.m.state.KLocked? || f.mcu[0].Some? by { assert Keys(f.r.loaded)[0].Some?; }
    assert h.a.upload ==> MemoryAfter(f, h, d) == (if d.clears then [] else f.mcu) + Keys(left);
    hide Sound;
    hide Consistent;
    hide Step;
    hide RecordsAfter;
    hide MemoryAfter;
  }

  lemma CaptureAligns(f: Full, h: Happening, d: Details)
    requires Sound(f) && FromBus(h) && Consistent(f, h, d) && Captures(f.s.m, h) && Aligned(f)
    ensures Aligned(Turn(f, h, d)) <==> !Misaligns(f, h, d)
  {
    TurnSound(f, h, d);
    var keys := Keys(f.r.loaded);
    assert f.mcu + [None] == keys + [None] <==> f.mcu == keys by {
      assert f.mcu == (f.mcu + [None])[..|f.mcu|] && keys == (keys + [None])[..|keys|];
    }
    assert f.mcu + [None] != keys by { assert (f.mcu + [None])[|f.mcu|].None?; }
    hide Sound;
    hide Consistent;
    hide Step;
  }

  lemma CreationAligns(f: Full, h: Happening, d: Details)
    requires Sound(f) && FromBus(h) && Consistent(f, h, d) && Creates(f.s.m, h) && Aligned(f)
    ensures Aligned(Turn(f, h, d))
  {
    TurnSound(f, h, d);
    var keys, rec := Keys(f.r.loaded), NewRecord(f.s.m, d);
    assert f.mcu == keys + [None];
    assert f.mcu[..|f.mcu| - 1] == keys;
    assert RecordsAfter(f, h, d).loaded == f.r.loaded + [rec];
    assert Keys(f.r.loaded + [rec]) == keys + [Some(R.KeyOf(rec))];
    hide Sound;
    hide Step;
  }

  /** No template comes or goes. */
  predicate LeavesTemplates(m: Manager, h: Happening)
  {
    LoadedBy(m, h).None? && !Erases(m, h) && !Captures(m, h) && !Creates(m, h)
  }

  lemma TemplatesLeft(f: Full, h: Happening, d: Details)
    requires Sound(f) && Consistent(f, h, d) && LeavesTemplates(f.s.m, h)
    ensures MemoryAfter(f, h, d) == f.mcu && RecordsAfter(f, h, d).loaded == f.r.loaded
  {
    hide InOrder;
    hide R.Lists;
    if h.CallDeleteCredential? && f.r.user == Some(h.user) && R.HasId(f.r.loaded, d.id) {
      R.Deleted(f.r, d.id, d.deletes);
    }
  }

  lemma StateLeft(f: Full, h: Happening)
    requires InOrder(f.s) && LeavesTemplates(f.s.m, h) && Aligned(f)
    ensures var m, m2 := f.s.m, ManagerAfter(f.s, h);
            && (m2.state.KEnrollDone? ==> m.state.KEnrollDone?)
            && (m.state.KLocked? ==> (!m2.state.KLocked? <==> h.Sensor? && Read(m, h.ev, h.a).Matched?))
            && (m.state.KEnrollDone? ==>
                  (!m2.state.KEnrollDone? <==>
                     (h.CallStartEnroll? && EnrollReachesSensor(m, h.a) && h.a.setMode)
                     || (h.CallStartAuth? && m.user == Some(h.req.user) && AuthReachesSensor(h.a))))
            && (m.state.KEnrollDone? ==> !m2.state.KLocked?)
  {
    if h.LoggedIn? {
      LoadUserResult(f.s.m, h.user, true, h.a);
    }
    if h.CallStartAuth? {
      LoadUserState(f.s.m, h.req.user, false, h.a);
      LoadUserResult(f.s.m, h.req.user, false, h.a);
    }
    hide LoadUser;
    hide Aligned;
    hide MatchReply;
  }

  lemma OthersAlign(f: Full, h: Happening, d: Details)
    requires Sound(f) && FromBus(h) && Consistent(f, h, d) && LeavesTemplates(f.s.m, h) && Aligned(f)
    ensures Aligned(Turn(f, h, d)) <==> !Misaligns(f, h, d)
  {
    TurnSound(f, h, d);
    TemplatesLeft(f, h, d);
    StateLeft(f, h);
    assert Keys(f.r.loaded) != Keys(f.r.loaded) + [None];
    hide Sound;
    hide Consistent;
    hide Step;
    hide RecordsAfter;
    hide MemoryAfter;
    hide ManagerAfter;
  }

  lemma TurnAligns(f: Full, h: Happening, d: Details)
    requires Sound(f) && FromBus(h) && Consistent(f, h, d) && Aligned(f)
    ensures Aligned(Turn(f, h, d)) <==> !Misaligns(f, h, d)
  {
    if LoadedBy(f.s.m, h).Some? {
      LoadAligns(f, h, d);
    } else if Erases(f.s.m, h) {
      ErasureAligns(f, h, d);
    } else if Captures(f.s.m, h) {
      CaptureAligns(f, h, d);
    } else if Creates(f.s.m, h) {
      CreationAligns(f, h, d);
    } else {
      OthersAlign(f, h, d);
    }
  }

  /** In every run: unless the manager is locked, the sensor holds the loaded user's records in
      order throughout iff no new template is abandoned, the sensor always forgets what it is told
      to forget, and no session comes back from a lock with templates missing. */
  lemma AlignedIff(disk: map<R.Key, R.File>, ms: seq<Move>)
    requires Possible(disk, ms)
    ensures AlwaysFull(Aligned, disk, ms) <==> NeverFull(Misaligns, disk, ms)
  {
    forall f: Full, h: Happening, d: Details | Sound(f) && FromBus(h) && Consistent(f, h, d) && Aligned(f)
      ensures Aligned(Turn(f, h, d)) <==> !Misaligns(f, h, d)
    {
      TurnAligns(f, h, d);
    }
    assert Aligned(Start(disk)) by { assert Keys([]) == []; }
    hide Aligned;
    hide Misaligns;
    hide Turn;
    hide Consistent;
    AlwaysIffNever(Aligned, Misaligns, disk, ms);
  }

  // ---------- a match names the record that matched ----------

  /** The record that an answer about the pending match would name is the one that matched. */
  predicate NamesMatched(f: Full)
  {
    f.s.m.state.KAuthDone? && f.s.m.pendingMatch.Some? ==>
      var i := f.s.m.pendingMatch.value.matchIndex;
      i < |f.r.loaded| ==> f.matched == Some(R.KeyOf(f.r.loaded[i]))
  }

  predicate Faithful(f: Full)
  {
    Aligned(f) && NamesMatched(f)
  }

  /** With a match pending, the records move up: another user is loaded who has a record at that
      index, or a record at that index or before it is deleted and there is one behind it. */
  predicate Misnames(f: Full, h: Happening, d: Details)
  {
    var m, listed := f.s.m, R.ValidOnes(d.listing);
    m.state.KAuthDone? && m.pendingMatch.Some? &&
    var i := m.pendingMatch.value.matchIndex;
    match h
    case LoggedIn(_, a) => LoadedBy(m, h).Some? && a.upload && i < |listed| && f.matched != Some(R.KeyOf(listed[i]))
    case CallStartAuth(_, req, a) =>
      && LoadedBy(m, h).Some? && a.upload && !AuthReachesSensor(a)
      && i < |listed| && f.matched != Some(R.KeyOf(listed[i]))
    case CallDeleteCredential(_, a) =>
      Erases(m, h) && a.upload && R.Find(f.r.loaded, d.id) <= i < |f.r.loaded| - 1
    case _ => false
  }

  predicate Misleads(f: Full, h: Happening, d: Details)
  {
    Misaligns(f, h, d) || Misnames(f, h, d)
  }

  lemma LoadNames(f: Full, h: Happening, d: Details)
    requires Sound(f) && FromBus(h) && Consistent(f, h, d) && LoadedBy(f.s.m, h).Some?
    ensures NamesMatched(Turn(f, h, d)) <==> !Misnames(f, h, d)
  {
    TurnSound(f, h, d);
    StateAfterLoad(f, h, d);
    PendingLeft(f, h);
    var listed := R.ValidOnes(d.listing);
    LoadRecords(f, h, d);
    hide Sound;
    hide Consistent;
    hide ManagerAfter;
    hide Step;
    hide RecordsAfter;
    hide MemoryAfter;
    hide R.ValidOnes;
  }

  lemma PendingLeft(f: Full, h: Happening)
    requires InOrder(f.s) && !h.Sensor? && !h.CallAuthenticateCredential?
    ensures ManagerAfter(f.s, h).pendingMatch == f.s.m.pendingMatch
  {
    PendingMatchAfter(f.s, h);
  }

  lemma RecordsErased(f: Full, h: Happening, d: Details)
    requires Sound(f) && Consistent(f, h, d) && Erases(f.s.m, h)
    ensures var n := R.Find(f.r.loaded, d.id);
            && n < |f.r.loaded| && R.DistinctIds(f.r.loaded)
            && RecordsAfter(f, h, d).loaded == f.r.loaded[..n] + f.r.loaded[n + 1..]
  {
    hide InOrder;
    R.Deleted(f.r, d.id, d.deletes);
  }

  /** The record at index i, if there is one, is still the same when record n is erased, iff none
      moves up to it. */
  lemma MovedUp(records: seq<R.Record>, n: nat, i: nat)
    requires n < |records| && R.DistinctIds(records)
    ensures var left := records[..n] + records[n + 1..];
            i < |records| ==>
              (i < |left| ==> R.KeyOf(left[i]) == R.KeyOf(records[i])) == !(n <= i < |records| - 1)
  {
    var left := records[..n] + records[n + 1..];
    if i < |left| {
      assert left[i] == records[if i < n then i else i + 1];
    }
  }

  lemma StateAfterErasure(f: Full, h: Happening)
    requires Erases(f.s.m, h)
    ensures ManagerAfter(f.s, h).state == (if h.a.upload then f.s.m.state else KLocked)
    ensures ManagerAfter(f.s, h).pendingMatch == f.s.m.pendingMatch
  {
  }

  lemma ErasureNames(f: Full, h: Happening, d: Details)
    requires Sound(f) && FromBus(h) && Consistent(f, h, d) && Erases(f.s.m, h) && NamesMatched(f)
    ensures NamesMatched(Turn(f, h, d)) <==> !Misnames(f, h, d)
  {
    TurnSound(f, h, d);
    RecordsErased(f, h, d);
    StateAfterErasure(f, h);
    if f.s.m.pendingMatch.Some? {
      MovedUp(f.r.loaded, R.Find(f.r.loaded, d.id), f.s.m.pendingMatch.value.matchIndex);
    }
    hide Sound;
    hide Consistent;
    hide Step;
    hide ManagerAfter;
    hide RecordsAfter;
    hide MemoryAfter;
    hide R.Find;
    hide R.DistinctIds;
  }

  lemma AuthDoneLeft(f: Full, h: Happening)
    requires InOrder(f.s) && LoadedBy(f.s.m, h).None? && !Erases(f.s.m, h) && ManagerAfter(f.s, h).state.KAuthDone?
    ensures LeavesTemplates(f.s.m, h)
    ensures if h.Sensor? && Read(f.s.m, h.ev, h.a).Matched? then ManagerAfter(f.s, h).pendingMatch == Some(h.ev)
            else f.s.m.state.KAuthDone? && ManagerAfter(f.s, h).pendingMatch == f.s.m.pendingMatch
  {
    PendingMatchAfter(f.s, h);
    if h.LoggedIn? {
      LoadUserResult(f.s.m, h.user, true, h.a);
    }
    if h.CallStartAuth? {
      LoadUserState(f.s.m, h.req.user, false, h.a);
      LoadUserResult(f.s.m, h.req.user, false, h.a);
    }
    hide LoadUser;
    hide MatchReply;
  }

  lemma OthersName(f: Full, h: Happening, d: Details)
    requires Sound(f) && FromBus(h) && Consistent(f, h, d) && LoadedBy(f.s.m, h).None? && !Erases(f.s.m, h)
    requires NamesMatched(f) && Aligned(Turn(f, h, d))
    ensures NamesMatched(Turn(f, h, d)) && !Misnames(f, h, d)
  {
    TurnSound(f, h, d);
    if ManagerAfter(f.s, h).state.KAuthDone? {
      AuthDoneLeft(f, h);
      TemplatesLeft(f, h, d);
    }
    hide Sound;
    hide Consistent;
    hide Step;
    hide RecordsAfter;
    hide MemoryAfter;
    hide ManagerAfter;
  }

  lemma TurnFaithful(f: Full, h: Happening, d: Details)
    requires Sound(f) && FromBus(h) && Consistent(f, h, d) && Faithful(f)
    ensures Faithful(Turn(f, h, d)) <==> !Misleads(f, h, d)
  {
    TurnAligns(f, h, d);
    hide Aligned;
    hide Misaligns;
    if LoadedBy(f.s.m, h).Some? {
      LoadNames(f, h, d);
    } else if Erases(f.s.m, h) {
      ErasureNames(f, h, d);
    } else if Aligned(Turn(f, h, d)) {
      OthersName(f, h, d);
    }
    hide NamesMatched;
    hide Misnames;
    hide Turn;
  }

  /** In every run: the sensor holds the loaded user's records in order, and an answer about the
      pending match names the record that matched, throughout iff none of those things happens and
      no record moves to or past the index of a pending match. */
  lemma FaithfulIff(disk: map<R.Key, R.File>, ms: seq<Move>)
    requires Possible(disk, ms)
    ensures AlwaysFull(Faithful, disk, ms) <==> NeverFull(Misleads, disk, ms)
  {
    forall f: Full, h: Happening, d: Details | Sound(f) && FromBus(h) && Consistent(f, h, d) && Faithful(f)
      ensures Faithful(Turn(f, h, d)) <==> !Misleads(f, h, d)
    {
      TurnFaithful(f, h, d);
    }
    assert Faithful(Start(disk)) by { assert Keys([]) == []; }
    hide Faithful;
    hide Misleads;
    hide Turn;
    hide Consistent;
    AlwaysIffNever(Faithful, Misleads, disk, ms);
  }

  /** In such a run a successful authentication names the record that matched, which is the loaded
      user's and on disk. */
  lemma AuthenticateNamesMatch(disk: map<R.Key, R.File>, ms: seq<Move>, a: Answers, d: Details)
    requires Possible(disk, ms) && NeverFull(Misleads, disk, ms)
    requires Consistent(RunFull(disk, ms), CallAuthenticateCredential(a), d)
    ensures var f := RunFull(disk, ms);
            AuthenticateCredential(f.s.m, a).reply.Success? ==>
              var i := f.s.m.pendingMatch.value.matchIndex;
              && i < |f.r.loaded| && f.matched == Some(R.KeyOf(f.r.loaded[i]))
              && f.s.m.user == Some(f.r.loaded[i].user) && R.KeyOf(f.r.loaded[i]) in f.r.disk
  {
    FaithfulIff(disk, ms);
    var f := RunFull(disk, ms);
    assert Faithful(f);
    hide RunFull;
    if AuthenticateCredential(f.s.m, a).reply.Success? {
      FaithfulNames(f, a, d);
    }
    hide Sound;
    hide Consistent;
    hide Faithful;
    hide AuthenticateCredential;
  }

  lemma FaithfulNames(f: Full, a: Answers, d: Details)
    requires Sound(f) && Faithful(f) && Consistent(f, CallAuthenticateCredential(a), d)
    requires AuthenticateCredential(f.s.m, a).reply.Success?
    ensures f.s.m.pendingMatch.Some? && f.s.m.pendingMatch.value.matchIndex < |f.r.loaded|
    ensures var rec := f.r.loaded[f.s.m.pendingMatch.value.matchIndex];
            f.matched == Some(R.KeyOf(rec)) && f.s.m.user == Some(rec.user) && R.KeyOf(rec) in f.r.disk
  {
    hide InOrder;
    MatchReplyIff(f.s.m.pendingMatch.value, a);
    hide MatchReply;
  }

  // ---------- whose template becomes a credential ----------

  /** An enrolment is going on, or a new template is in the sensor that a credential can be made
      of: then the loaded user is the one it is for. */
  predicate NewIsOwn(f: Full)
  {
    EnrollAction(f.s.m.action) || (f.s.m.state.KEnrollDone? && Fresh(f.mcu)) ==> f.s.m.user == EnrolledFor(f.s.notes)
  }

  /** Another user is loaded in the middle of an enrolment; or behind a new template, without the
      sensor forgetting it or getting another on top, which is to say that the user has no valid
      records; or a template is migrated for a user who is not the loaded one. */
  predicate NewChangesHands(f: Full, h: Happening, d: Details)
  {
    var m := f.s.m;
    var survives := m.state.KEnrollDone? && Fresh(f.mcu) && !d.clears && R.ValidOnes(d.listing) == [];
    match h
    case LoggedIn(_, a) => LoadedBy(m, h).Some? && (EnrollAction(m.action) || (survives && a.upload))
    case CallStartAuth(_, req, a) => LoadedBy(m, h).Some? && survives && a.upload && !AuthReachesSensor(a)
    case CallEnrollLegacyTemplate(a) => MigrationPasses(m, a) && m.migrator != m.user
    case _ => false
  }

  lemma FreshAfterUpload(mcu: Memory, records: seq<R.Record>, d: Details)
    requires d.taken >= |records|
    ensures Fresh(Uploaded(mcu, records, d)) <==> Fresh(mcu) && !d.clears && records == []
  {
    var sent := Keys(records);
    if records != [] {
      assert Uploaded(mcu, records, d)[|Uploaded(mcu, records, d)| - 1] == sent[|sent| - 1];
    } else {
      assert mcu + sent == mcu && [] + sent == [];
    }
  }

  lemma ActionAfterLoad(f: Full, h: Happening, d: Details)
    requires Sound(f) && Consistent(f, h, d) && LoadedBy(f.s.m, h).Some?
    ensures EnrollAction(ManagerAfter(f.s, h).action) <==> h.LoggedIn? && EnrollAction(f.s.m.action)
  {
    hide R.InSync;
    if h.LoggedIn? {
      LoadUserState(f.s.m, h.user, true, h.a);
    } else {
      LoadUserState(f.s.m, h.req.user, false, h.a);
    }
    hide LoadUser;
  }

  lemma NotesAfterLoad(f: Full, h: Happening)
    requires LoadedBy(f.s.m, h).Some?
    ensures EnrolledFor(f.s.notes + NotesOf(f.s, h)) == EnrolledFor(f.s.notes)
  {
    EnrolledForAfter(f.s.notes, NotesOf(f.s, h));
    hide EnrolledFor;
    hide StartAuthSession;
  }

  lemma EnrolledForAfter(notes: seq<Note>, more: seq<Note>)
    requires |more| <= 1
    ensures EnrolledFor(notes + more)
            == if more != [] && StartsEnrolment(more[0]) then more[0].user else EnrolledFor(notes)
  {
    LastAppend(StartsEnrolment, notes, more);
    hide Last;
  }

  lemma LoadKeepsOwn(f: Full, h: Happening, d: Details)
    requires Sound(f) && FromBus(h) && Consistent(f, h, d) && LoadedBy(f.s.m, h).Some? && NewIsOwn(f)
    ensures NewIsOwn(Turn(f, h, d)) <==> !NewChangesHands(f, h, d)
  {
    TurnSound(f, h, d);
    UserAfter(f, h, d);
    StateAfterLoad(f, h, d);
    ActionAfterLoad(f, h, d);
    NotesAfterLoad(f, h);
    NotesAfter(f, h);
    var listed := R.ValidOnes(d.listing);
    if h.a.upload {
      FreshAfterUpload(f.mcu, listed, d);
    }
    LoadRecords(f, h, d);
    hide Sound;
    hide Consistent;
    hide ManagerAfter;
    hide Step;
    hide RecordsAfter;
    hide Uploaded;
    hide Fresh;
    hide EnrolledFor;
    hide NotesOf;
    hide EnrollAction;
    hide R.ValidOnes;
  }

  lemma NotesAfter(f: Full, h: Happening)
    requires InOrder(f.s)
    ensures Step(f.s, h).notes == f.s.notes + NotesOf(f.s, h)
  {
    StepEffect(f.s, h);
    hide Step;
  }

  /** What h makes of an enrolment that is going on, and of the notes about it. */
  lemma EnrolmentAfter(f: Full, h: Happening)
    requires InOrder(f.s) && LoadedBy(f.s.m, h).None?
    ensures var m, m2, more := f.s.m, ManagerAfter(f.s, h), NotesOf(f.s, h);
            && (EnrollAction(m2.action) ==> more == [EnrolStarted(m.user)] || (EnrollAction(m.action) && more == []))
            && (m2.state.KEnrollDone? ==>
                  (m.state.KEnrollDone? && !Captures(m, h) && (more == [] || !StartsEnrolment(more[0])))
                  || (EnrollAction(m.action) && Captures(m, h) && more == [EnrolmentDone])
                  || (h.CallEnrollLegacyTemplate? && more == [TemplateMigrated(m.migrator)]))
            && (h.CallEnrollLegacyTemplate? && MigrationPasses(m, h.a) ==>
                  m2.state.KEnrollDone? && more == [TemplateMigrated(m.migrator)])
            && |more| <= 1
  {
    if h.LoggedIn? {
      LoadUserState(f.s.m, h.user, true, h.a);
      LoadUserResult(f.s.m, h.user, true, h.a);
    }
    if h.CallStartAuth? {
      LoadUserState(f.s.m, h.req.user, false, h.a);
      LoadUserResult(f.s.m, h.req.user, false, h.a);
    }
    hide LoadUser;
    hide MatchReply;
  }

  lemma FreshAfter(f: Full, h: Happening, d: Details)
    requires Sound(f) && Consistent(f, h, d) && LoadedBy(f.s.m, h).None? && !ManagerAfter(f.s, h).state.KLocked?
    ensures Captures(f.s.m, h) ==> Fresh(MemoryAfter(f, h, d))
    ensures !Captures(f.s.m, h) && Fresh(MemoryAfter(f, h, d)) ==> Fresh(f.mcu)
  {
    hide InOrder;
    hide R.InSync;
    if Erases(f.s.m, h) {
      StateAfterErasure(f, h);
      FreshAfterUpload(f.mcu, RecordsAfter(f, h, d).loaded, d);
      hide Uploaded;
    }
    hide ManagerAfter;
  }

  lemma OthersKeepOwn(f: Full, h: Happening, d: Details)
    requires Sound(f) && FromBus(h) && Consistent(f, h, d) && LoadedBy(f.s.m, h).None? && NewIsOwn(f)
    ensures NewIsOwn(Turn(f, h, d)) <==> !NewChangesHands(f, h, d)
  {
    TurnSound(f, h, d);
    UserAfter(f, h, d);
    NotesAfter(f, h);
    EnrolmentAfter(f, h);
    EnrolledForAfter(f.s.notes, NotesOf(f.s, h));
    if h.CallEnrollLegacyTemplate? && MigrationPasses(f.s.m, h.a) {
      MigrationCaptures(f, h);
    }
    if !ManagerAfter(f.s, h).state.KLocked? {
      FreshAfter(f, h, d);
    }
    hide Sound;
    hide Consistent;
    hide ManagerAfter;
    hide Step;
    hide RecordsAfter;
    hide MemoryAfter;
    hide Fresh;
    hide NotesOf;
    hide Last;
    hide Captures;
    hide EnrolledFor;
    hide EnrollAction;
  }

  lemma MigrationCaptures(f: Full, h: Happening)
    requires h.CallEnrollLegacyTemplate? && MigrationPasses(f.s.m, h.a)
    ensures Captures(f.s.m, h)
  {
  }

  /** In every run with records and sensor memory: whenever a credential can be made of a new
      template, or will be, the loaded user is the one it is for, throughout iff no such thing
      happens. */
  lemma NewIsOwnIff(disk: map<R.Key, R.File>, ms: seq<Move>)
    requires Possible(disk, ms)
    ensures AlwaysFull(NewIsOwn, disk, ms) <==> NeverFull(NewChangesHands, disk, ms)
  {
    forall f: Full, h: Happening, d: Details | Sound(f) && FromBus(h) && Consistent(f, h, d) && NewIsOwn(f)
      ensures NewIsOwn(Turn(f, h, d)) <==> !NewChangesHands(f, h, d)
    {
      if LoadedBy(f.s.m, h).Some? {
        LoadKeepsOwn(f, h, d);
      } else {
        OthersKeepOwn(f, h, d);
      }
    }
    assert NewIsOwn(Start(disk));
    hide NewIsOwn;
    hide NewChangesHands;
    hide Turn;
    hide Consistent;
    AlwaysIffNever(NewIsOwn, NewChangesHands, disk, ms);
  }

  // ---------- runs in which it goes wrong ----------

  /** One more move. */
  lemma MoveSnoc(disk: map<R.Key, R.File>, ms: seq<Move>, mv: Move)
    requires Possible(disk, ms) && FromBus(mv.h) && Consistent(RunFull(disk, ms), mv.h, mv.d)
    ensures Possible(disk, ms + [mv]) && RunFull(disk, ms + [mv]) == Turn(RunFull(disk, ms), mv.h, mv.d)
    ensures RunFull(disk, ms + [mv]).s.m == ManagerAfter(RunFull(disk, ms).s, mv.h)
    ensures RunFull(disk, ms + [mv]).s.notes == RunFull(disk, ms).s.notes + NotesOf(RunFull(disk, ms).s, mv.h)
  {
    hide Consistent;
    hide Turn;
    hide ManagerAfter;
    assert (ms + [mv])[..|ms|] == ms;
    TurnSound(RunFull(disk, ms), mv.h, mv.d);
    NotesAfter(RunFull(disk, ms), mv.h);
    TurnSystem(RunFull(disk, ms), mv.h, mv.d);
  }

  lemma TurnSystem(f: Full, h: Happening, d: Details)
    requires R.InSync(f.r)
    ensures Turn(f, h, d).s == Step(f.s, h)
  {
  }

  const NOTHING := Details([], "", "", true, 0, true, true)

  function AuthOf(user: string): AuthRequest
  {
    AuthRequest(user, "", "", "")
  }

  // Two records of one user.
  const REC_A := R.Record("a", "u", "A")
  const REC_B := R.Record("b", "u", "B")
  const TWO := map[R.Key("u", "a") := R.File("A", true), R.Key("u", "b") := R.File("B", true)]
  const BOTH := [R.Listed(REC_A, true), R.Listed(REC_B, true)]

  lemma BothListed()
    ensures R.ListsAll(TWO, "u", BOTH) && R.ValidOnes(BOTH) == [REC_A, REC_B]
  {
    assert BOTH[..1] == [R.Listed(REC_A, true)] && BOTH[..1][..0] == [];
    assert R.ValidOnes(BOTH[..1]) == [REC_A];
    assert BOTH[0].rec.id == "a" && BOTH[1].rec.id == "b";
  }

  lemma LoadMove(f: Full, h: Happening, d: Details)
    requires Sound(f) && FromBus(h) && Consistent(f, h, d) && LoadedBy(f.s.m, h).Some? && h.a.upload
    ensures var g, listed := Turn(f, h, d), R.ValidOnes(d.listing);
            && g.s.m == ManagerAfter(f.s, h)
            && g.r.loaded == listed && g.r.disk == f.r.disk && g.matched == f.matched
            && g.mcu == (if d.clears then [] else f.mcu) + Keys(listed)
  {
    TurnSound(f, h, d);
    assert h.LoggedIn? || h.CallStartAuth?;
    assert d.taken >= |R.ValidOnes(d.listing)|;
    LoadRecords(f, h, d);
    hide Sound;
    hide Consistent;
    hide Step;
    hide ManagerAfter;
    hide RecordsAfter;
  }

  /** Nobody is there and a user with these files asks to authenticate. */
  lemma FirstAuth(disk: map<R.Key, R.File>, user: string, listing: seq<R.Listed>)
    requires R.ListsAll(disk, user, listing)
    ensures var d := NOTHING.(listing := listing, taken := |listing|);
            var mv := Move(CallStartAuth(":alice", AuthOf(user), Overlap.YES), d);
            && Possible(disk, [mv])
            && var f := RunFull(disk, [mv]);
               && f.s.m == INITIAL_MANAGER.(
                             state := KAuth, action := MatchFingerDown, sensor := MatchFingerDown, user := Some(user))
               && f.r.loaded == R.ValidOnes(listing) && f.r.disk == disk && f.mcu == Keys(R.ValidOnes(listing))
               && f.s.w.auth.Held() && f.matched.None?
  {
    var mv := Move(CallStartAuth(":alice", AuthOf(user), Overlap.YES), NOTHING.(listing := listing, taken := |listing|));
    var f0 := Start(disk);
    StartSound(disk);
    FewerValid(listing);
    hide R.ListsAll;
    assert [] + [mv] == [mv];
    LoadMove(f0, mv.h, mv.d);
    LoadUserState(f0.s.m, user, false, mv.h.a);
    LoadUserResult(f0.s.m, user, false, mv.h.a);
    StepEffect(f0.s, mv.h);
    hide LoadUser;
    hide Step;
    hide RecordsAfter;
    hide MemoryAfter;
    MoveSnoc(disk, [], mv);
    assert [] + Keys(R.ValidOnes(listing)) == Keys(R.ValidOnes(listing));
  }

  lemma {:induction false} FewerValid(listing: seq<R.Listed>)
    ensures |R.ValidOnes(listing)| <= |listing|
  {
    if listing == [] {
    } else {
      FewerValid(listing[..|listing| - 1]);
    }
  }

  /** A move that changes neither the records nor the sensor's memory. */
  lemma QuietMove(disk: map<R.Key, R.File>, ms: seq<Move>, mv: Move)
    requires Possible(disk, ms) && FromBus(mv.h) && Consistent(RunFull(disk, ms), mv.h, mv.d)
    requires LeavesTemplates(RunFull(disk, ms).s.m, mv.h) && !mv.h.CallDeleteCredential?
    ensures Possible(disk, ms + [mv])
    ensures var f, g := RunFull(disk, ms), RunFull(disk, ms + [mv]);
            && g.s.m == ManagerAfter(f.s, mv.h) && g.s.notes == f.s.notes + NotesOf(f.s, mv.h)
            && g.r == f.r && g.mcu == f.mcu && g.matched == MatchedAfter(f, mv.h)
  {
    MoveSnoc(disk, ms, mv);
    hide RunFull;
    hide Possible;
    hide Consistent;
    hide ManagerAfter;
    hide Step;
  }

  /** User u authenticates, the first of the two records matches, and before anybody asks for the
      result that record is deleted. */
  const SEEN: seq<Move> :=
    [Move(CallStartAuth(":alice", AuthOf("u"), Overlap.YES), NOTHING.(listing := BOTH, taken := 2))]
    + [Move(Sensor(Overlap.MATCHED, Overlap.YES), NOTHING)]
  const MISNAMED: seq<Move> := SEEN + [Move(CallDeleteCredential("u", Overlap.YES), NOTHING.(id := "a", taken := 1))]

  /** The manager expects a match and the sensor reports one. */
  lemma MatchComes(disk: map<R.Key, R.File>, ms: seq<Move>)
    requires Possible(disk, ms) && RunFull(disk, ms).s.m.action.MatchFingerDown? && RunFull(disk, ms).s.m.state.KAuth?
    ensures var ms2 := ms + [Move(Sensor(Overlap.MATCHED, Overlap.YES), NOTHING)];
            && Possible(disk, ms2)
            && var f, g := RunFull(disk, ms), RunFull(disk, ms2);
               && g.s.m.state.KAuthDone? && g.s.m.pendingMatch == Some(Overlap.MATCHED) && g.s.m.user == f.s.m.user
               && g.r == f.r && g.mcu == f.mcu && g.matched == if f.mcu == [] then None else f.mcu[0]
  {
    var mv := Move(Sensor(Overlap.MATCHED, Overlap.YES), NOTHING);
    var f := RunFull(disk, ms);
    hide Possible;
    hide RunFull;
    MatchRead(f);
    QuietMove(disk, ms, mv);
  }

  lemma MatchRead(f: Full)
    requires f.s.m.action.MatchFingerDown? && f.s.m.state.KAuth?
    ensures var h := Sensor(Overlap.MATCHED, Overlap.YES);
            && Read(f.s.m, h.ev, h.a).Matched? && LeavesTemplates(f.s.m, h)
            && var m2 := ManagerAfter(f.s, h);
               m2.state.KAuthDone? && m2.pendingMatch == Some(Overlap.MATCHED) && m2.user == f.s.m.user
  {
  }

  lemma Seen()
    ensures Possible(TWO, SEEN)
    ensures var f := RunFull(TWO, SEEN);
            && f.s.m.state.KAuthDone? && f.s.m.pendingMatch == Some(Overlap.MATCHED) && f.s.m.user == Some("u")
            && f.r.loaded == [REC_A, REC_B] && f.matched == Some(R.KeyOf(REC_A))
  {
    BothListed();
    FirstAuth(TWO, "u", BOTH);
    hide RunFull;
    hide Possible;
    hide R.ListsAll;
    hide R.ValidOnes;
    var mv := Move(CallStartAuth(":alice", AuthOf("u"), Overlap.YES), NOTHING.(listing := BOTH, taken := 2));
    MatchComes(TWO, [mv]);
    assert Keys([REC_A, REC_B])[0] == Some(R.KeyOf(REC_A));
  }

  lemma ErasesFirst(f: Full)
    requires Sound(f) && f.s.m.user == Some("u") && f.r.loaded == [REC_A, REC_B]
    ensures var mv := Move(CallDeleteCredential("u", Overlap.YES), NOTHING.(id := "a", taken := 1));
            && Erases(f.s.m, mv.h) && Consistent(f, mv.h, mv.d)
            && RecordsAfter(f, mv.h, mv.d).loaded == [REC_B]
  {
    hide InOrder;
    assert f.r.loaded[0].id == "a";
    R.Deleted(f.r, "a", true);
    hide R.InSync;
    assert f.r.loaded[1..] == [REC_B] && [] + [REC_B] == [REC_B];
  }

  lemma NamesAnother(f: Full)
    requires Sound(f) && f.s.m.state.KAuthDone? && f.s.m.pendingMatch == Some(Overlap.MATCHED) && f.r.loaded == [REC_B]
    ensures Consistent(f, CallAuthenticateCredential(Overlap.YES), NOTHING)
    ensures AuthenticateCredential(f.s.m, Overlap.YES).reply.Success?
  {
    hide Sound;
  }

  /** The authentication then names the other record. */
  lemma MatchNamesAnother()
    ensures Possible(TWO, MISNAMED)
    ensures var f := RunFull(TWO, MISNAMED);
            && Consistent(f, CallAuthenticateCredential(Overlap.YES), NOTHING)
            && AuthenticateCredential(f.s.m, Overlap.YES).reply.Success?
            && f.s.m.pendingMatch == Some(Overlap.MATCHED) && f.r.loaded == [REC_B]
            && f.matched == Some(R.KeyOf(REC_A)) && R.KeyOf(REC_A) != R.KeyOf(REC_B)
  {
    Seen();
    var f := RunFull(TWO, SEEN);
    var mv := Move(CallDeleteCredential("u", Overlap.YES), NOTHING.(id := "a", taken := 1));
    ErasesFirst(f);
    StateAfterErasure(f, mv.h);
    hide RunFull;
    hide Possible;
    MoveSnoc(TWO, SEEN, mv);
    var g := RunFull(TWO, MISNAMED);
    assert MISNAMED == SEEN + [mv];
    assert g.r.loaded == [REC_B] && g.matched == f.matched by {
      hide Sound;
      hide Consistent;
      hide ManagerAfter;
      hide Step;
      hide RecordsAfter;
      hide MemoryAfter;
    }
    hide Sound;
    hide Consistent;
    hide Step;
    hide Turn;
    hide ManagerAfter;
    hide SEEN;
    NamesAnother(g);
    hide AuthenticateCredential;
  }

  /** User u, who has no records, starts an authentication, ends it, and enrols a finger. */
  const ENROLS: seq<Move> :=
    [Move(CallStartAuth(":alice", AuthOf("u"), Overlap.YES), NOTHING)]
    + [Move(CallAuthEnd, NOTHING)]
    + [Move(CallStartEnroll(":alice", Overlap.YES), NOTHING)]
    + [Move(Sensor(Sensing.ENROLLED, Overlap.YES), NOTHING)]

  lemma EndsAuth(disk: map<R.Key, R.File>, ms: seq<Move>)
    requires Possible(disk, ms) && RunFull(disk, ms).s.m.state.KAuth? && RunFull(disk, ms).s.w.auth.Held()
    requires RunFull(disk, ms).s.m.validFrom == 0
    ensures var ms2 := ms + [Move(CallAuthEnd, NOTHING)];
            && Possible(disk, ms2)
            && var f, g := RunFull(disk, ms), RunFull(disk, ms2);
               && g.s.m == KillMcuSession(f.s.m, f.s.w.issued)
               && g.r == f.r && g.mcu == f.mcu
  {
    var f, mv := RunFull(disk, ms), Move(CallAuthEnd, NOTHING);
    hide Possible;
    hide RunFull;
    assert LeavesTemplates(f.s.m, mv.h);
    assert ManagerAfter(f.s, mv.h) == KillMcuSession(f.s.m, f.s.w.issued);
    QuietMove(disk, ms, mv);
  }

  lemma StartsEnroll(disk: map<R.Key, R.File>, ms: seq<Move>)
    requires Possible(disk, ms) && RunFull(disk, ms).s.m.state.KNone? && RunFull(disk, ms).s.m.user.Some?
    ensures var ms2 := ms + [Move(CallStartEnroll(":alice", Overlap.YES), NOTHING)];
            && Possible(disk, ms2)
            && var f, g := RunFull(disk, ms), RunFull(disk, ms2);
               && g.s.m == f.s.m.(state := KEnroll, action := EnrollImage, sensor := EnrollImage)
               && EnrolledFor(g.s.notes) == f.s.m.user
               && g.r == f.r && g.mcu == f.mcu
  {
    var f, mv := RunFull(disk, ms), Move(CallStartEnroll(":alice", Overlap.YES), NOTHING);
    hide Possible;
    hide RunFull;
    assert LeavesTemplates(f.s.m, mv.h);
    QuietMove(disk, ms, mv);
    EnrolledForAfter(f.s.notes, NotesOf(f.s, mv.h));
    hide EnrolledFor;
  }

  lemma Enrolled(disk: map<R.Key, R.File>, ms: seq<Move>)
    requires Possible(disk, ms) && RunFull(disk, ms).s.m.state.KEnroll? && RunFull(disk, ms).s.m.action.EnrollImage?
    ensures var ms2 := ms + [Move(Sensor(Sensing.ENROLLED, Overlap.YES), NOTHING)];
            && Possible(disk, ms2)
            && var f, g := RunFull(disk, ms), RunFull(disk, ms2);
               && g.s.m.state.KEnrollDone? && g.s.m.user == f.s.m.user && g.s.m.lockedToUser == f.s.m.lockedToUser
               && EnrolledFor(g.s.notes) == EnrolledFor(f.s.notes)
               && g.r == f.r && g.mcu == f.mcu + [None]
  {
    var f, mv := RunFull(disk, ms), Move(Sensor(Sensing.ENROLLED, Overlap.YES), NOTHING);
    hide Possible;
    hide RunFull;
    MoveSnoc(disk, ms, mv);
    EnrolledRead(f, mv.h);
    EnrolledForAfter(f.s.notes, [EnrolmentDone]);
    hide EnrolledFor;
    hide Step;
    hide ManagerAfter;
    hide NotesOf;
    hide Captures;
    hide Consistent;
  }

  lemma EnrolledRead(f: Full, h: Happening)
    requires f.s.m.state.KEnroll? && f.s.m.action.EnrollImage? && h == Sensor(Sensing.ENROLLED, Overlap.YES)
    ensures Captures(f.s.m, h) && NotesOf(f.s, h) == [EnrolmentDone]
    ensures var m2 := ManagerAfter(f.s, h);
            m2.state.KEnrollDone? && m2.user == f.s.m.user && m2.lockedToUser == f.s.m.lockedToUser
  {
  }

  lemma Enrols()
    ensures Possible(map[], ENROLS)
    ensures var f := RunFull(map[], ENROLS);
            && f.s.m.state.KEnrollDone? && f.s.m.user == Some("u") && !f.s.m.lockedToUser
            && EnrolledFor(f.s.notes) == Some("u")
            && f.r.disk == map[] && f.r.loaded == [] && f.mcu == [None]
  {
    FirstAuth(map[], "u", []);
    hide RunFull;
    hide Possible;
    hide Sound;
    hide EnrolledFor;
    assert Keys([]) == [];
    var ms1 := [Move(CallStartAuth(":alice", AuthOf("u"), Overlap.YES), NOTHING)];
    EndsAuth(map[], ms1);
    var ms2 := ms1 + [Move(CallAuthEnd, NOTHING)];
    StartsEnroll(map[], ms2);
    var ms3 := ms2 + [Move(CallStartEnroll(":alice", Overlap.YES), NOTHING)];
    Enrolled(map[], ms3);
  }

  /** With the new template still in the sensor, the user starts another authentication. */
  const ABANDONS: seq<Move> := ENROLS + [Move(CallStartAuth(":alice", AuthOf("u"), Overlap.YES), NOTHING)]

  lemma AuthAgain(f: Full, h: Happening)
    requires f.s.m.state.KEnrollDone? && f.s.m.user == Some("u") && h == CallStartAuth(":alice", AuthOf("u"), Overlap.YES)
    ensures LeavesTemplates(f.s.m, h) && ManagerAfter(f.s, h).state.KAuth?
  {
    LoadUserState(f.s.m, "u", false, Overlap.YES);
    LoadUserResult(f.s.m, "u", false, Overlap.YES);
    hide LoadUser;
  }

  /** The sensor then looks for a match among templates one of which is of no record. */
  lemma TemplateAbandoned()
    ensures Possible(map[], ABANDONS)
    ensures var f := RunFull(map[], ABANDONS); f.s.m.state.KAuth? && f.r.loaded == [] && f.mcu == [None] && !Aligned(f)
  {
    Enrols();
    var f, mv := RunFull(map[], ENROLS), Move(CallStartAuth(":alice", AuthOf("u"), Overlap.YES), NOTHING);
    AuthAgain(f, mv.h);
    hide RunFull;
    hide Possible;
    hide Sound;
    hide ManagerAfter;
    hide ENROLS;
    QuietMove(map[], ENROLS, mv);
    assert Keys([]) == [];
  }

  /** A start for user v, who has no records either, is refused after v has been loaded and the
      sensor has kept its templates; then somebody asks for a credential. */
  const KEPT := Overlap.YES.(reset := false, setNonce := false)
  const LOADS_V: seq<Move> := ENROLS + [Move(CallStartAuth(":bob", AuthOf("v"), KEPT), NOTHING.(clears := false))]
  const CREDENTIAL_OF_V: seq<Move> :=
    LOADS_V + [Move(CallCreateCredential(Overlap.YES), NOTHING.(id := "c", tmpl := "T"))]

  lemma LoadsV(f: Full, mv: Move)
    requires Sound(f) && f.s.m.state.KEnrollDone? && f.s.m.user == Some("u") && !f.s.m.lockedToUser
    requires f.mcu == [None] && f.r.disk == map[]
    requires mv == Move(CallStartAuth(":bob", AuthOf("v"), KEPT), NOTHING.(clears := false))
    ensures Consistent(f, mv.h, mv.d)
    ensures var g := Turn(f, mv.h, mv.d);
            && g.s.m.state.KEnrollDone? && g.s.m.user == Some("v")
            && g.r.loaded == [] && g.r.disk == map[] && g.mcu == [None]
    ensures NotesOf(f.s, mv.h) == []
  {
    LoadMove(f, mv.h, mv.d);
    UserAfter(f, mv.h, mv.d);
    StateAfterLoad(f, mv.h, mv.d);
    LoadUserResult(f.s.m, "v", false, KEPT);
    assert Keys([]) == [];
    hide LoadUser;
    hide Sound;
    hide Turn;
    hide ManagerAfter;
  }

  lemma CreatesForV(f: Full, mv: Move)
    requires Sound(f) && f.s.m.state.KEnrollDone? && f.s.m.user == Some("v") && f.mcu == [None] && f.r.disk == map[]
    requires mv == Move(CallCreateCredential(Overlap.YES), NOTHING.(id := "c", tmpl := "T"))
    ensures Consistent(f, mv.h, mv.d) && Creates(f.s.m, mv.h)
    ensures RecordsAfter(f, mv.h, mv.d).disk == map[R.Key("v", "c") := R.File("T", true)]
  {
    hide InOrder;
  }

  /** User u's finger is now user v's credential. */
  lemma TemplateChangesHands()
    ensures Possible(map[], CREDENTIAL_OF_V)
    ensures var f, g := RunFull(map[], LOADS_V), RunFull(map[], CREDENTIAL_OF_V);
            && EnrolledFor(f.s.notes) == Some("u")
            && g.s.notes == f.s.notes + [CredentialCreated(Some("v"))]
            && g.r.disk == map[R.Key("v", "c") := R.File("T", true)]
  {
    Enrols();
    var f0 := RunFull(map[], ENROLS);
    var mv := Move(CallStartAuth(":bob", AuthOf("v"), KEPT), NOTHING.(clears := false));
    var mv2 := Move(CallCreateCredential(Overlap.YES), NOTHING.(id := "c", tmpl := "T"));
    LoadsV(f0, mv);
    hide RunFull;
    hide Possible;
    hide Sound;
    hide Consistent;
    hide Turn;
    hide ENROLS;
    hide EnrolledFor;
    MoveSnoc(map[], ENROLS, mv);
    var f := RunFull(map[], LOADS_V);
    CreatesForV(f, mv2);
    MoveSnoc(map[], LOADS_V, mv2);
  }
}
