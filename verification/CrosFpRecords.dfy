/** The records behind the credential calls: those of the loaded user in memory, those of all
    users on disk, and an index in between. */
module CrosFpRecords {
  import opened Options
  import M = CrosFpManager

  datatype Record = Record(id: string, user: string, tmpl: string)

  /** Where a record is on disk. */
  datatype Key = Key(user: string, id: string)

  function KeyOf(rec: Record): Key
  {
    Key(rec.user, rec.id)
  }

  /** A record file. A file that is not valid is indexed but not brought into memory. */
  datatype File = File(tmpl: string, valid: bool)

  /** What is read from one file. */
  datatype Listed = Listed(rec: Record, valid: bool)

  /** The disk, whether it may be used, the record manager's index from ids to users, and the
      session manager's user and records. */
  datatype Records = Records(
    disk: map<Key, File>, access: bool, index: map<string, string>, user: Option<string>, loaded: seq<Record>)

  predicate HasId(records: seq<Record>, id: string)
  {
    exists i :: 0 <= i < |records| && records[i].id == id
  }

  predicate DistinctIds(records: seq<Record>)
  {
    forall i, j :: 0 <= i < j < |records| ==> records[i].id != records[j].id
  }

  /** These are the valid records of the user, each once. */
  ghost predicate Lists(disk: map<Key, File>, user: string, records: seq<Record>)
  {
    && DistinctIds(records)
    && (forall i :: 0 <= i < |records| ==>
          && records[i].user == user && Key(user, records[i].id) in disk
          && disk[Key(user, records[i].id)] == File(records[i].tmpl, true))
    && (forall id :: Key(user, id) in disk && disk[Key(user, id)].valid ==> HasId(records, id))
  }

  /** Memory and disk agree: the records in memory are the valid ones of the loaded user on disk,
      and all of that user's are indexed; without a user there is nothing in memory and no access
      to the disk. */
  ghost predicate InSync(r: Records)
  {
    match r.user
    case None => !r.access && r.index == map[] && r.loaded == []
    case Some(user) =>
      && r.access && Lists(r.disk, user, r.loaded)
      && (forall id :: id in r.index <==> Key(user, id) in r.disk)
      && (forall id :: id in r.index ==> r.index[id] == user)
  }

  /** All files of the user, each once: what reading them yields. */
  ghost predicate ListsAll(disk: map<Key, File>, user: string, listing: seq<Listed>)
  {
    && (forall i, j :: 0 <= i < j < |listing| ==> listing[i].rec.id != listing[j].rec.id)
    && (forall i :: 0 <= i < |listing| ==>
          && listing[i].rec.user == user && Key(user, listing[i].rec.id) in disk
          && disk[Key(user, listing[i].rec.id)] == File(listing[i].rec.tmpl, listing[i].valid))
    && (forall id :: Key(user, id) in disk ==> exists i :: 0 <= i < |listing| && listing[i].rec.id == id)
  }

  // ---------- the operations ----------

  datatype Done = Done(r: Records, ok: bool)

  /** try_emplace for each record that was read. */
  function Indexed(index: map<string, string>, listing: seq<Listed>): (r: map<string, string>)
    ensures forall id :: id in r <==> id in index || exists i :: 0 <= i < |listing| && listing[i].rec.id == id
  {
    if listing == [] then index
    else
      var last := listing[|listing| - 1].rec;
      var before := Indexed(index, listing[..|listing| - 1]);
      if last.id in before then before else before[last.id := last.user]
  }

  /** What is left of a listing without the files that are not valid. */
  function ValidOnes(listing: seq<Listed>): (r: seq<Record>)
  {
    if listing == [] then []
    else
      var last := listing[|listing| - 1];
      ValidOnes(listing[..|listing| - 1]) + if last.valid then [last.rec] else []
  }

  function LoadUser(r: Records, user: string, listing: seq<Listed>): Done
  {
    if r.user.Some? then Done(r, false)
    else Done(Records(r.disk, true, Indexed(r.index, listing), Some(user), r.loaded + ValidOnes(listing)), true)
  }

  function UnloadUser(r: Records): Records
  {
    Records(r.disk, false, map[], None, [])
  }

  /** r with one more record. */
  function With(r: Records, rec: Record): Records
  {
    Records(r.disk[KeyOf(rec) := File(rec.tmpl, true)], r.access, r.index[rec.id := rec.user], r.user, r.loaded + [rec])
  }

  function CreateRecord(r: Records, rec: Record, writes: bool): Done
  {
    if r.user != Some(rec.user) || rec.id in r.index || !r.access || !writes then Done(r, false)
    else Done(With(r, rec), true)
  }

  /** The position of the first record with this id, or the end. */
  function Find(records: seq<Record>, id: string): (n: nat)
    ensures n <= |records| && (n < |records| ==> records[n].id == id)
    ensures forall i :: 0 <= i < n ==> records[i].id != id
  {
    if records == [] || records[0].id == id then 0 else 1 + Find(records[1..], id)
  }

  /** BiodStorage::DeleteRecord: a file that is not there counts as deleted. */
  function DeleteFile(r: Records, key: Key, deletes: bool): Done
  {
    if !r.access then Done(r, false)
    else if key !in r.disk then Done(r, true)
    else if !deletes then Done(r, false)
    else Done(r.(disk := r.disk - {key}), true)
  }

  function DeleteRecord(r: Records, id: string, deletes: bool): Done
    requires r.user.Some? && HasId(r.loaded, id) ==> id in r.index
  {
    if r.user.None? || !HasId(r.loaded, id) then Done(r, false)
    else
      var d := DeleteFile(r, Key(r.index[id], id), deletes);
      if !d.ok then Done(r, false)
      else
        var n := Find(r.loaded, id);
        Done(d.r.(index := r.index - {id}, loaded := r.loaded[..n] + r.loaded[n + 1..]), true)
  }

  function DeleteNotLoadedRecord(r: Records, user: string, id: string, deletes: bool): Done
  {
    if r.user == Some(user) || id in r.index then Done(r, false) else DeleteFile(r, Key(user, id), deletes)
  }

  predicate ValidOnDisk(r: Records, user: string, id: string)
  {
    Key(user, id) in r.disk && r.disk[Key(user, id)].valid
  }

  // ---------- every operation keeps memory and disk in sync ----------

  lemma {:induction false} IndexedUsers(index: map<string, string>, listing: seq<Listed>, user: string)
    requires forall id :: id in index ==> index[id] == user
    requires forall i :: 0 <= i < |listing| ==> listing[i].rec.user == user
    ensures forall id :: id in Indexed(index, listing) ==> Indexed(index, listing)[id] == user
  {
    if listing == [] {
    } else {
      IndexedUsers(index, listing[..|listing| - 1], user);
    }
  }

  lemma {:induction false} ValidOnesIff(listing: seq<Listed>, rec: Record)
    ensures rec in ValidOnes(listing) <==> exists i :: 0 <= i < |listing| && listing[i] == Listed(rec, true)
  {
    if listing == [] {
    } else {
      var n := |listing| - 1;
      ValidOnesIff(listing[..n], rec);
      if i :| 0 <= i < |listing| && listing[i] == Listed(rec, true) && i < n {
        assert listing[..n][i] == listing[i];
      }
    }
  }

  lemma {:induction false} ValidOnesDistinct(listing: seq<Listed>)
    requires forall i, j :: 0 <= i < j < |listing| ==> listing[i].rec.id != listing[j].rec.id
    ensures DistinctIds(ValidOnes(listing))
  {
    if listing == [] {
    } else {
      var n := |listing| - 1;
      var front := ValidOnes(listing[..n]);
      ValidOnesDistinct(listing[..n]);
      forall i | 0 <= i < |front|
        ensures front[i].id != listing[n].rec.id
      {
        ValidOnesIff(listing[..n], front[i]);
      }
    }
  }

  /** Reading all files lists the valid records. */
  lemma ReadingLists(disk: map<Key, File>, user: string, listing: seq<Listed>)
    requires ListsAll(disk, user, listing)
    ensures Lists(disk, user, ValidOnes(listing))
  {
    var records := ValidOnes(listing);
    ValidOnesDistinct(listing);
    forall i | 0 <= i < |records|
      ensures records[i].user == user && Key(user, records[i].id) in disk
      ensures disk[Key(user, records[i].id)] == File(records[i].tmpl, true)
    {
      ValidOnesIff(listing, records[i]);
    }
    forall id | Key(user, id) in disk && disk[Key(user, id)].valid
      ensures HasId(records, id)
    {
      var i :| 0 <= i < |listing| && listing[i].rec.id == id;
      ValidOnesIff(listing, listing[i].rec);
    }
  }

  lemma LoadInSync(r: Records, user: string, listing: seq<Listed>)
    requires InSync(r) && ListsAll(r.disk, user, listing)
    ensures InSync(LoadUser(r, user, listing).r)
  {
    if r.user.None? {
      ReadingLists(r.disk, user, listing);
      IndexedUsers(r.index, listing, user);
      assert r.loaded + ValidOnes(listing) == ValidOnes(listing);
      hide Lists;
      hide ValidOnes;
    }
  }

  lemma CreateInSync(r: Records, rec: Record, writes: bool)
    requires InSync(r)
    ensures InSync(CreateRecord(r, rec, writes).r)
  {
    var d := CreateRecord(r, rec, writes);
    if d.ok {
      assert d.r.loaded[|r.loaded|] == rec;
      assert forall i :: 0 <= i < |r.loaded| ==> d.r.loaded[i] == r.loaded[i];
      forall id
        ensures HasId(d.r.loaded, id) <==> HasId(r.loaded, id) || id == rec.id
      {
        if HasId(r.loaded, id) {
          var i :| 0 <= i < |r.loaded| && r.loaded[i].id == id;
          assert d.r.loaded[i].id == id;
        }
      }
    }
  }

  /** What is left when the record at n is erased. */
  lemma Erased(records: seq<Record>, n: nat)
    requires n < |records| && DistinctIds(records)
    ensures var rest := records[..n] + records[n + 1..];
            && DistinctIds(rest)
            && (forall i :: 0 <= i < |rest| ==> rest[i] == records[if i < n then i else i + 1])
            && (forall id :: HasId(rest, id) <==> HasId(records, id) && id != records[n].id)
  {
    var rest := records[..n] + records[n + 1..];
    assert forall i :: 0 <= i < |rest| ==> rest[i] == records[if i < n then i else i + 1];
    forall id
      ensures HasId(rest, id) <==> HasId(records, id) && id != records[n].id
    {
      if HasId(records, id) && id != records[n].id {
        var i :| 0 <= i < |records| && records[i].id == id;
        assert rest[if i < n then i else i - 1].id == id;
      }
    }
  }

  lemma ErasedLists(disk: map<Key, File>, user: string, records: seq<Record>, n: nat)
    requires n < |records| && Lists(disk, user, records)
    ensures var rest := records[..n] + records[n + 1..];
            && Lists(disk - {Key(user, records[n].id)}, user, rest)
            && (forall id :: HasId(rest, id) <==> HasId(records, id) && id != records[n].id)
  {
    Erased(records, n);
    assert forall i :: 0 <= i < |records| && i != n ==> records[i].id != records[n].id;
  }

  lemma OnDisk(r: Records, id: string)
    requires InSync(r) && r.user.Some?
    ensures HasId(r.loaded, id) <==> ValidOnDisk(r, r.user.value, id)
    ensures id in r.index <==> Key(r.user.value, id) in r.disk
  {
  }

  /** r without the record at position n of its memory. */
  function Without(r: Records, n: nat): Records
    requires r.user.Some? && n < |r.loaded|
  {
    var id := r.loaded[n].id;
    r.(disk := r.disk - {Key(r.user.value, id)}, index := r.index - {id}, loaded := r.loaded[..n] + r.loaded[n + 1..])
  }

  lemma WithoutInSync(r: Records, n: nat)
    requires InSync(r) && r.user.Some? && n < |r.loaded|
    ensures InSync(Without(r, n))
  {
    ErasedLists(r.disk, r.user.value, r.loaded, n);
    hide Lists;
    hide HasId;
  }

  lemma Deleted(r: Records, id: string, deletes: bool)
    requires InSync(r) && r.user.Some? && HasId(r.loaded, id)
    ensures id in r.index && Find(r.loaded, id) < |r.loaded|
    ensures DeleteRecord(r, id, deletes) == if deletes then Done(Without(r, Find(r.loaded, id)), true) else Done(r, false)
  {
    OnDisk(r, id);
    hide Lists;
  }

  lemma DeleteInSync(r: Records, id: string, deletes: bool)
    requires InSync(r)
    ensures InSync(DeleteRecord(r, id, deletes).r)
    ensures DeleteRecord(r, id, deletes).ok ==> DeleteRecord(r, id, deletes).r.disk == r.disk - {Key(r.user.value, id)}
  {
    if r.user.Some? && HasId(r.loaded, id) {
      Deleted(r, id, deletes);
      WithoutInSync(r, Find(r.loaded, id));
      hide InSync;
      hide DeleteRecord;
      hide HasId;
    }
  }

  lemma DeleteOtherInSync(r: Records, user: string, id: string, deletes: bool)
    requires InSync(r)
    ensures InSync(DeleteNotLoadedRecord(r, user, id, deletes).r)
  {
  }

  // ---------- over runs ----------

  datatype Op =
    | Load(loading: string, listing: seq<Listed>) | Unload
    | Create(rec: Record, writes: bool)
    | Delete(id: string, deletes: bool)
    | DeleteOther(other: string, id: string, deletes: bool)

  /** What is read from disk is what is there. */
  ghost predicate Honest(r: Records, op: Op)
  {
    op.Load? ==> ListsAll(r.disk, op.loading, op.listing)
  }

  ghost function Do(r: Records, op: Op): Records
    requires InSync(r)
  {
    match op
    case Load(user, listing) => LoadUser(r, user, listing).r
    case Unload => UnloadUser(r)
    case Create(rec, writes) => CreateRecord(r, rec, writes).r
    case Delete(id, deletes) => DeleteRecord(r, id, deletes).r
    case DeleteOther(user, id, deletes) => DeleteNotLoadedRecord(r, user, id, deletes).r
  }

  lemma DoInSync(r: Records, op: Op)
    requires InSync(r) && Honest(r, op)
    ensures InSync(Do(r, op))
  {
    hide InSync;
    match op
    case Load(user, listing) => LoadInSync(r, user, listing);
    case Unload => UnloadInSync(r);
    case Create(rec, writes) => CreateInSync(r, rec, writes);
    case Delete(id, deletes) => DeleteInSync(r, id, deletes);
    case DeleteOther(user, id, deletes) => DeleteOtherInSync(r, user, id, deletes);
  }

  lemma UnloadInSync(r: Records)
    ensures InSync(UnloadUser(r))
  {
  }

  ghost predicate HonestRun(r: Records, ops: seq<Op>)
    requires InSync(r)
    decreases |ops|
  {
    ops == [] || (Honest(r, ops[0]) && (DoInSync(r, ops[0]); HonestRun(Do(r, ops[0]), ops[1..])))
  }

  /** Memory and disk are in sync after every run, whatever the disk refuses. */
  ghost function DoAll(r: Records, ops: seq<Op>): (r2: Records)
    requires InSync(r) && HonestRun(r, ops)
    ensures InSync(r2)
    decreases |ops|
  {
    if ops == [] then r
    else
      DoInSync(r, ops[0]);
      DoAll(Do(r, ops[0]), ops[1..])
  }

  lemma FileGoneAgain(r: Records, rec: Record)
    requires r.access && KeyOf(rec) !in r.disk
    ensures DeleteFile(With(r, rec), KeyOf(rec), true) == Done(With(r, rec).(disk := r.disk), true)
  {
    PutAndRemoved(r.disk, KeyOf(rec), File(rec.tmpl, true));
  }

  lemma GoneAgain(r: Records, rec: Record)
    requires r.user.Some? && r.access && rec.id !in r.index && KeyOf(rec) !in r.disk && !HasId(r.loaded, rec.id)
    ensures DeleteRecord(With(r, rec), rec.id, true) == Done(r, true)
  {
    FileGoneAgain(r, rec);
    LastFound(r.loaded, rec);
    PutAndRemoved(r.index, rec.id, rec.user);
    hide DeleteFile;
    hide HasId;
    hide Find;
  }

  /** Creating a record and deleting it again leaves memory and disk as they were. */
  lemma CreateThenDelete(r: Records, rec: Record)
    requires InSync(r) && CreateRecord(r, rec, true).ok
    ensures var r1 := CreateRecord(r, rec, true).r;
            InSync(r1) && DeleteRecord(r1, rec.id, true) == Done(r, true)
  {
    CreateInSync(r, rec, true);
    FreshId(r, rec);
    GoneAgain(r, rec);
    hide InSync;
    hide HasId;
    hide DeleteRecord;
  }

  lemma FreshId(r: Records, rec: Record)
    requires InSync(r) && CreateRecord(r, rec, true).ok
    ensures !HasId(r.loaded, rec.id) && KeyOf(rec) !in r.disk
  {
    OnDisk(r, rec.id);
  }

  lemma PutAndRemoved<K, V>(m: map<K, V>, k: K, v: V)
    requires k !in m
    ensures m[k := v] - {k} == m
  {
  }

  lemma LastFound(records: seq<Record>, rec: Record)
    requires !HasId(records, rec.id)
    ensures var more, n := records + [rec], |records|;
            HasId(more, rec.id) && Find(more, rec.id) == n && more[..n] + more[n + 1..] == records
  {
    var more, n := records + [rec], |records|;
    assert more[n] == rec && forall i :: 0 <= i < n ==> more[i] == records[i];
  }

  // ---------- what the replies of the credential calls mean ----------

  /** What the manager is told when it deletes this record, and what is left then. */
  ghost function Deletion(r: Records, user: string, id: string, deletes: bool): Done
    requires InSync(r)
  {
    if r.user == Some(user) then DeleteRecord(r, id, deletes) else DeleteNotLoadedRecord(r, user, id, deletes)
  }

  /** The loaded user has a file with this id. */
  predicate LoadedHas(r: Records, id: string)
  {
    r.user.Some? && Key(r.user.value, id) in r.disk
  }

  /** A deletion is answered with success only if the record is gone, and nothing else with it;
      otherwise everything is as it was. It is answered with "does not exist" iff the user is
      loaded and has no such valid record. It fails iff the disk refuses, or the user is not
      loaded and nobody is, or whoever is has a file with the same id. The manager's sessions are
      left alone, except that it locks if the sensor does not take the loaded user's remaining
      templates, although success is answered. */
  lemma DeleteReplyMeans(m: M.Manager, r: Records, user: string, id: string, deletes: bool, a: M.Answers)
    requires InSync(r) && m.user == r.user
    requires a.hasRecord == HasId(r.loaded, id) && a.deleteRecord == Deletion(r, user, id, deletes).ok
    ensures var reply, r2 := M.DeleteCredential(m, user, a).reply, Deletion(r, user, id, deletes).r;
            && InSync(r2)
            && (reply.Success? ==> Key(user, id) !in r2.disk && r2.disk == r.disk - {Key(user, id)})
            && (!reply.Success? ==> r2 == r)
            && (reply.NotExist? <==> r.user == Some(user) && !ValidOnDisk(r, user, id))
            && (reply.DeletionFailed? <==>
                  if r.user == Some(user) then ValidOnDisk(r, user, id) && !deletes
                  else r.user.None? || LoadedHas(r, id) || (Key(user, id) in r.disk && !deletes))
            && (reply.Success? || reply.NotExist? || reply.DeletionFailed?)
    ensures var d := M.DeleteCredential(m, user, a);
            && d.m.state == (if d.reply.Success? && r.user == Some(user) && !a.upload then M.KLocked else m.state)
            && d.m == m.(state := d.m.state, sensor := d.m.sensor)
  {
    if r.user == Some(user) {
      OnDisk(r, id);
      DeleteInSync(r, id, deletes);
    } else {
      DeleteOtherInSync(r, user, id, deletes);
    }
    assert r.disk - {Key(user, id)} == r.disk || Key(user, id) in r.disk;
  }

  /** What is left when the manager has been asked to create a credential: the record is created
      if it gets that far. */
  function Creation(m: M.Manager, r: Records, rec: Record, writes: bool, a: M.Answers): Records
  {
    if m.state.KEnrollDone? && m.user.Some? && a.getTemplate && a.getSecret then CreateRecord(r, rec, writes).r else r
  }

  /** A credential that was created is on disk, under the loaded user, last in memory, and
      nothing else has changed; any other answer leaves everything as it was. It fails at the
      record iff the user has a file of that id already or the disk refuses. */
  lemma CreateReplyStores(m: M.Manager, r: Records, rec: Record, writes: bool, a: M.Answers)
    requires InSync(r) && m.user == r.user && (m.user.Some? ==> m.user.value == rec.user)
    requires a.createRecord == CreateRecord(r, rec, writes).ok
    ensures var reply, r2 := M.CreateCredential(m, a).reply, Creation(m, r, rec, writes, a);
            && InSync(r2)
            && (reply.Success? ==>
                  && m.user == Some(rec.user) && r2.loaded == r.loaded + [rec] && KeyOf(rec) !in r.disk
                  && r2.disk == r.disk[KeyOf(rec) := File(rec.tmpl, true)])
            && (!reply.Success? ==> r2 == r)
            && (reply.CreateRecordFailed?
                <==> m.state.KEnrollDone? && m.user.Some? && a.getTemplate && a.getSecret && (KeyOf(rec) in r.disk || !writes))
  {
    CreateInSync(r, rec, writes);
    if r.user.Some? {
      OnDisk(r, rec.id);
    }
  }
}
