/** util.c: the two searches over the device files that match a pattern. */
module DeviceSearch {
  import opened Counting
  import opened MachineInts
  import opened Options

  datatype Action = Opened(file: nat) | Called(file: nat) | Closed(file: nat)

  /** A predicate on one device. */
  predicate Satisfies<D(!new)>(func: D -> bool, device: D)
  {
    func(device)
  }

  /** Some file can be opened and its device satisfies the predicate. */
  predicate AnyDevice<D(!new)>(files: seq<Option<D>>, func: D -> bool)
  {
    exists i :: 0 <= i < |files| && files[i].Some? && Satisfies(func, files[i].value)
  }

  /** A predicate with its bounds fixed. */
  function At<D(!new)>(func: (D, int32, int32) -> bool, width: int32, height: int32): D -> bool
  {
    device => func(device, width, height)
  }

  /** The files from i on that are opened: all that can be, up to the first success. */
  function Tried<D(!new)>(files: seq<Option<D>>, func: D -> bool, i: nat): (r: seq<nat>)
    requires i <= |files|
    decreases |files| - i
  {
    if i == |files| then []
    else if files[i].None? then Tried(files, func, i + 1)
    else if Satisfies(func, files[i].value) then [i]
    else [i] + Tried(files, func, i + 1)
  }

  function Round(file: nat): seq<Action>
  {
    [Opened(file), Called(file), Closed(file)]
  }

  function Rounds(files: seq<nat>): (r: seq<Action>)
  {
    if files == [] then [] else Round(files[0]) + Rounds(files[1..])
  }

  class DeviceFiles<D(!new)> {
    const files: seq<Option<D>>
    var held: set<nat>
    var log: seq<Action>

    constructor (files: seq<Option<D>>)
      ensures this.files == files && held == {} && log == []
    {
      this.files := files;
      held := {};
      log := [];
    }

    method Open(file: nat) returns (ok: bool)
      requires file < |files| && file !in held
      modifies this
      ensures ok == files[file].Some?
      ensures ok ==> held == old(held) + {file} && log == old(log) + [Opened(file)]
      ensures !ok ==> held == old(held) && log == old(log)
    {
      ok := files[file].Some?;
      if ok {
        held := held + {file};
        log := log + [Opened(file)];
      }
    }

    /** The predicate may only be asked about an open file. */
    method Call(func: D -> bool, file: nat) returns (answer: bool)
      requires file < |files| && file in held && files[file].Some?
      modifies this`log
      ensures answer == Satisfies(func, files[file].value) && log == old(log) + [Called(file)]
    {
      log := log + [Called(file)];
      return Satisfies(func, files[file].value);
    }

    method Close(file: nat)
      requires file in held
      modifies this
      ensures held == old(held) - {file} && log == old(log) + [Closed(file)]
    {
      held := held - {file};
      log := log + [Closed(file)];
    }

    method IsAnyDevice(func: D -> bool) returns (found: bool)
      requires held == {}
      modifies this
      ensures found <==> exists i :: 0 <= i < |files| && files[i].Some? && func(files[i].value)
      ensures held == {} && log == old(log) + Rounds(Tried(files, func, 0))
    {
      AnyDeviceIff(files, func);
      hide Satisfies;
      hide Tried;
      hide Rounds;
      hide Round;
      NothingTried(files, func);
      found := false;
      var i := 0;
      while i < |files|
        invariant 0 <= i <= |files| && held == {}
        invariant forall k :: 0 <= k < i && files[k].Some? ==> !Satisfies(func, files[k].value)
        invariant log + Rounds(Tried(files, func, i)) == old(log) + Rounds(Tried(files, func, 0))
      {
        ghost var before := log;
        TriedStep(files, func, i);
        var ok := Open(i);
        if !ok {
          i := i + 1;
          continue;
        }
        var answer := Call(func, i);
        if answer {
          found := true;
          Close(i);
          RoundDone(before, i, []);
          break;
        }
        Close(i);
        RoundDone(before, i, Rounds(Tried(files, func, i + 1)));
        i := i + 1;
      }
      assert log + [] == log;
    }

    method DoesAnyDeviceSupportResolution(func: (D, int32, int32) -> bool, width: int32, height: int32) returns (found: bool)
      requires held == {}
      modifies this
      ensures found <==> exists i :: 0 <= i < |files| && files[i].Some? && func(files[i].value, width, height)
      ensures held == {} && log == old(log) + Rounds(Tried(files, At(func, width, height), 0))
    {
      AnyDeviceAtIff(files, func, width, height);
      hide Satisfies;
      hide Tried;
      hide Rounds;
      hide Round;
      hide At;
      found := false;
      ghost var fixed := At(func, width, height);
      NothingTried(files, fixed);
      var i := 0;
      while i < |files|
        invariant 0 <= i <= |files| && held == {}
        invariant forall k :: 0 <= k < i && files[k].Some? ==> !Satisfies(fixed, files[k].value)
        invariant log + Rounds(Tried(files, fixed, i)) == old(log) + Rounds(Tried(files, fixed, 0))
      {
        ghost var before := log;
        TriedStep(files, fixed, i);
        var ok := Open(i);
        if !ok {
          i := i + 1;
          continue;
        }
        var answer := Call(At(func, width, height), i);
        if answer {
          found := true;
          Close(i);
          RoundDone(before, i, []);
          break;
        }
        Close(i);
        RoundDone(before, i, Rounds(Tried(files, fixed, i + 1)));
        i := i + 1;
      }
      assert log + [] == log;
    }
  }

  /** What a search is for, in terms of its predicate and its bounds. */
  lemma AnyDeviceIff<D(!new)>(files: seq<Option<D>>, func: D -> bool)
    ensures AnyDevice(files, func) <==> exists i :: 0 <= i < |files| && files[i].Some? && func(files[i].value)
  {
  }

  lemma AnyDeviceAtIff<D(!new)>(files: seq<Option<D>>, func: (D, int32, int32) -> bool, width: int32, height: int32)
    ensures AnyDevice(files, At(func, width, height))
            <==> exists i :: 0 <= i < |files| && files[i].Some? && func(files[i].value, width, height)
  {
  }

  lemma NothingTried<D(!new)>(files: seq<Option<D>>, func: D -> bool)
    ensures Rounds(Tried(files, func, |files|)) == []
  {
  }

  lemma RoundDone(before: seq<Action>, file: nat, rest: seq<Action>)
    ensures var log := before + [Opened(file)] + [Called(file)] + [Closed(file)];
            log + rest == before + (Round(file) + rest) && log == before + Round(file)
  {
  }

  lemma RoundsCons(file: nat, files: seq<nat>)
    ensures Rounds([file] + files) == Round(file) + Rounds(files)
  {
    assert ([file] + files)[1..] == files;
  }

  lemma TriedStep<D(!new)>(files: seq<Option<D>>, func: D -> bool, i: nat)
    requires i < |files|
    ensures Rounds(Tried(files, func, i))
            == if files[i].None? then Rounds(Tried(files, func, i + 1))
               else if Satisfies(func, files[i].value) then Round(i)
               else Round(i) + Rounds(Tried(files, func, i + 1))
  {
    RoundsCons(i, []);
    RoundsCons(i, Tried(files, func, i + 1));
    assert [i] + [] == [i];
  }

  // ---------- what the searches do to the files ----------

  /** A file is tried iff it can be opened and no earlier one was a success, and it is tried
      once. */
  lemma {:induction false} TriedIff<D(!new)>(files: seq<Option<D>>, func: D -> bool, i: nat, file: nat)
    requires i <= |files|
    ensures Count(Tried(files, func, i), file)
            == if i <= file < |files| && files[file].Some?
                  && (forall k :: i <= k < file && files[k].Some? ==> !func(files[k].value)) then 1 else 0
    decreases |files| - i
  {
    if i == |files| {
    } else {
      TriedIff(files, func, i + 1, file);
      CountAppend([i], Tried(files, func, i + 1), file);
      assert Count([i], file) == if file == i then 1 else 0;
    }
  }

  lemma CountRound(file: nat, rest: seq<Action>, a: Action)
    ensures Count(Round(file) + rest, a) == (if a.file == file then 1 else 0) + Count(rest, a)
  {
    CountAppend([Opened(file)], [Called(file), Closed(file)], a);
    CountAppend([Called(file)], [Closed(file)], a);
    assert [Opened(file)] + [Called(file), Closed(file)] == Round(file);
    assert [Called(file)] + [Closed(file)] == [Called(file), Closed(file)];
    OnceEach(file, a);
    CountAppend(Round(file), rest, a);
  }

  lemma OnceEach(file: nat, a: Action)
    ensures Count([Opened(file)], a) == if a == Opened(file) then 1 else 0
    ensures Count([Called(file)], a) == if a == Called(file) then 1 else 0
    ensures Count([Closed(file)], a) == if a == Closed(file) then 1 else 0
  {
  }

  /** Every call is between the opening and the closing of its file. */
  predicate Bracketed(log: seq<Action>)
  {
    forall k :: 0 <= k < |log| && log[k].Called? ==>
      0 < k < |log| - 1 && log[k - 1] == Opened(log[k].file) && log[k + 1] == Closed(log[k].file)
  }

  lemma BracketedRound(file: nat, rest: seq<Action>)
    requires Bracketed(rest)
    ensures Bracketed(Round(file) + rest)
  {
    var log := Round(file) + rest;
    assert forall k :: 3 <= k < |log| ==> log[k] == rest[k - 3];
  }

  /** As many of each action as there are rounds with the file, and every call between the
      opening and the closing of its file. */
  lemma {:induction false} RoundsBracket(files: seq<nat>, a: Action)
    ensures Count(Rounds(files), a) == Count(files, a.file) && Bracketed(Rounds(files))
  {
    if files == [] {
    } else {
      hide Bracketed;
      var rest := Rounds(files[1..]);
      RoundsBracket(files[1..], a);
      CountRound(files[0], rest, a);
      BracketedRound(files[0], rest);
      hide Round;
      CountAppend([files[0]], files[1..], a.file);
      assert [files[0]] + files[1..] == files;
      assert Count([files[0]], a.file) == if files[0] == a.file then 1 else 0;
    }
  }

  /** Over a whole search: a file is opened, asked about and closed exactly once each if it can
      be opened and is reached, and not touched otherwise. */
  lemma SearchTouchesEachFileOnce<D(!new)>(files: seq<Option<D>>, func: D -> bool, file: nat)
    ensures var log := Rounds(Tried(files, func, 0));
            && Count(log, Opened(file)) == Count(log, Called(file)) == Count(log, Closed(file))
            && Count(log, Opened(file))
               == if file < |files| && files[file].Some?
                     && (forall k :: 0 <= k < file && files[k].Some? ==> !func(files[k].value)) then 1 else 0
  {
    var tried := Tried(files, func, 0);
    RoundsBracket(tried, Opened(file));
    RoundsBracket(tried, Called(file));
    RoundsBracket(tried, Closed(file));
    TriedIff(files, func, 0, file);
  }
}
