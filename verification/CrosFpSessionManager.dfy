/** The session manager as it is written, over the record manager and the disk: fields that are
    updated, and loops that look records up. */
module CrosFpSessionManager {
  import opened Options
  import R = CrosFpRecords

  /** CrosFpSessionManagerImpl over CrosFpRecordManager. */
  class CrosFpSessionManagerImpl {
    var disk: map<R.Key, R.File>
    var access: bool
    var index: map<string, string>
    var user: Option<string>
    var loaded: seq<R.Record>

    function View(): R.Records
      reads this
    {
      R.Records(disk, access, index, user, loaded)
    }

    constructor (disk: map<R.Key, R.File>)
      ensures View() == R.Records(disk, false, map[], None, []) && R.InSync(View())
    {
      this.disk := disk;
      access, index, user, loaded := false, map[], None, [];
    }

    /** GetRecordsForUser: what was read is indexed, unless its id is there already. */
    method IndexRecords(listing: seq<R.Listed>)
      modifies this`index
      ensures index == R.Indexed(old(index), listing)
    {
      hide R.HasId;
      var i := 0;
      while i < |listing|
        invariant 0 <= i <= |listing| && index == R.Indexed(old(index), listing[..i])
      {
        assert listing[..i + 1][..i] == listing[..i];
        if listing[i].rec.id !in index {
          index := index[listing[i].rec.id := listing[i].rec.user];
        }
        i := i + 1;
      }
      assert listing[..i] == listing;
    }

    method LoadUser(userId: string, listing: seq<R.Listed>) returns (ok: bool)
      modifies this
      ensures var d := R.LoadUser(old(View()), userId, listing); View() == d.r && ok == d.ok
    {
      hide R.Indexed;
      if user.Some? {
        return false;
      }
      access := true;
      IndexRecords(listing);
      user := Some(userId);
      var i := 0;
      while i < |listing|
        invariant 0 <= i <= |listing| && loaded == old(loaded) + R.ValidOnes(listing[..i])
        invariant user == Some(userId) && access && disk == old(disk) && index == R.Indexed(old(index), listing)
      {
        assert listing[..i + 1][..i] == listing[..i];
        if listing[i].valid {
          loaded := loaded + [listing[i].rec];
        }
        i := i + 1;
      }
      assert listing[..i] == listing;
      return true;
    }

    method UnloadUser()
      modifies this
      ensures View() == R.UnloadUser(old(View()))
    {
      user := None;
      loaded := [];
      index := map[];
      access := false;
    }

    /** The loop that the lookups share. */
    method FindRecord(id: string) returns (found: Option<nat>)
      ensures found == if R.HasId(loaded, id) then Some(R.Find(loaded, id)) else None
    {
      var i := 0;
      while i < |loaded|
        invariant 0 <= i <= |loaded| && forall k :: 0 <= k < i ==> loaded[k].id != id
      {
        if loaded[i].id == id {
          return Some(i);
        }
        i := i + 1;
      }
      return None;
    }

    method HasRecordId(id: string) returns (has: bool)
      ensures has == (user.Some? && R.HasId(loaded, id))
    {
      if user.None? {
        return false;
      }
      var found := FindRecord(id);
      return found.Some?;
    }

    method CreateRecord(rec: R.Record, writes: bool) returns (ok: bool)
      modifies this
      ensures var d := R.CreateRecord(old(View()), rec, writes); View() == d.r && ok == d.ok
    {
      if user != Some(rec.user) {
        return false;
      }
      if rec.id in index {
        return false;
      }
      if !access || !writes {
        return false;
      }
      disk := disk[R.KeyOf(rec) := R.File(rec.tmpl, true)];
      index := index[rec.id := rec.user];
      loaded := loaded + [rec];
      return true;
    }

    method DeleteFile(key: R.Key, deletes: bool) returns (ok: bool)
      modifies this`disk
      ensures var d := R.DeleteFile(old(View()), key, deletes); View() == d.r && ok == d.ok
    {
      if !access {
        return false;
      }
      if key !in disk {
        return true;
      }
      if !deletes {
        return false;
      }
      disk := disk - {key};
      return true;
    }

    /** The file goes first, so that a refusal leaves memory and disk in sync. */
    method DeleteRecord(id: string, deletes: bool) returns (ok: bool)
      requires R.InSync(View())
      modifies this
      ensures var d := R.DeleteRecord(old(View()), id, deletes); View() == d.r && ok == d.ok
    {
      hide R.Lists;
      hide R.Find;
      if user.None? {
        return false;
      }
      var found := FindRecord(id);
      if found.None? {
        return false;
      }
      R.OnDisk(View(), id);
      var deleted := DeleteFile(R.Key(index[id], id), deletes);
      if !deleted {
        return false;
      }
      index := index - {id};
      loaded := loaded[..found.value] + loaded[found.value + 1..];
      return true;
    }

    method DeleteNotLoadedRecord(userId: string, id: string, deletes: bool) returns (ok: bool)
      modifies this
      ensures var d := R.DeleteNotLoadedRecord(old(View()), userId, id, deletes); View() == d.r && ok == d.ok
    {
      if user == Some(userId) {
        return false;
      }
      if id in index {
        return false;
      }
      ok := DeleteFile(R.Key(userId, id), deletes);
    }
  }
}
