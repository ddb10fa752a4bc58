/** util_vaapi.c over a driver with fixed answers: which profiles it supports, with which
    attributes, and up to which size. */
module Vaapi {
  import opened MachineInts
  import opened Options
  import opened Resolutions

  datatype Profile = ProfileNone | H264Baseline | H264Main | H264High | H264ConstrainedBaseline | Vp8Version0_3
                   | Vp9Profile0 | Vp9Profile2 | Av1Profile0 | HevcMain | HevcMain10 | OtherProfile(number: int)

  datatype Entrypoint = Vld | EncSlice | EncSliceLp | OtherEntrypoint(number: int)

  datatype AttribType = RtFormat | RateControl | OtherAttrib(number: int)
  datatype Attrib = Attrib(kind: AttribType, value: bv32)

  datatype SurfaceAttrib = MaxWidth(value: int32) | MaxHeight(value: int32) | OtherSurfaceAttrib

  const YUV420: bv32 := 0x1
  const YUV420_10: bv32 := 0x100
  const RC_VBR: bv32 := 0x4

  /** What libva answers. None is a failed call. */
  datatype Driver = Driver(
    displayValid: bool,
    initializes: bool,
    maxProfiles: int32,
    profileCount: Option<int32>,
    profileAt: int -> Profile,
    maxEntrypoints: int32,
    entrypointCount: Profile -> Option<int32>,
    entrypointAt: (Profile, int) -> Entrypoint,
    answersAttributes: (Profile, Entrypoint) -> bool,
    attribute: (Profile, Entrypoint, AttribType) -> Attrib,
    createsConfig: (Profile, Entrypoint) -> bool,
    surfaceAttribCount: (Profile, Entrypoint) -> Option<uint32>,
    surfaceAttribs: (Profile, Entrypoint) -> Option<seq<SurfaceAttrib>>)

  // ---------- capabilities ----------

  /** A list of profiles up to its terminator. */
  function Named(profiles: seq<Profile>): (r: seq<Profile>)
    ensures r <= profiles && ProfileNone !in r
    ensures ProfileNone in profiles ==> |r| < |profiles|
    ensures |r| < |profiles| ==> profiles[|r|] == ProfileNone
  {
    if profiles == [] || profiles[0] == ProfileNone then [] else [profiles[0]] + Named(profiles[1..])
  }

  predicate HasEntrypoint(d: Driver, p: Profile, e: Entrypoint, format: bv32)
  {
    d.answersAttributes(p, e) && Overlaps(d.attribute(p, e, RtFormat).value, format)
  }

  /** Two masks have a bit in common. */
  predicate Overlaps(a: bv32, b: bv32)
  {
    a & b != 0
  }

  /** The driver lists this profile. */
  predicate Lists(d: Driver, p: Profile)
  {
    && d.maxProfiles > 0 && d.profileCount.Some?
    && exists i :: 0 <= i < d.profileCount.value && d.profileAt(i) == p
  }

  /** Some required profile is supported with this entrypoint and format. */
  predicate Matches(d: Driver, required: seq<Profile>, e: Entrypoint, format: bv32)
  {
    exists p :: p in Named(required) && Lists(d, p) && HasEntrypoint(d, p, e, format)
  }

  method HasVaapiEntrypoint(d: Driver, p: Profile, e: Entrypoint, format: bv32) returns (has: bool)
    ensures has <==> HasEntrypoint(d, p, e, format)
  {
    hide Overlaps;
    var attrib := Attrib(RtFormat, 0);
    if !d.answersAttributes(p, e) {
      return false;
    }
    attrib := d.attribute(p, e, attrib.kind);
    return Overlaps(attrib.value, format);
  }

  method MatchVaapiCapabilities(d: Driver, required: seq<Profile>, e: Entrypoint, format: bv32) returns (found: bool)
    requires ProfileNone in required
    ensures found <==> Matches(d, required, e, format)
  {
    hide HasEntrypoint;
    found := false;
    if d.maxProfiles <= 0 {
      return;
    }
    if d.profileCount.None? {
      return;
    }
    ghost var named := Named(required);
    var i := 0;
    while i < d.profileCount.value
      invariant 0 <= i && (i > 0 ==> i <= d.profileCount.value)
      invariant found ==> Matches(d, required, e, format)
      invariant !found ==> forall k :: 0 <= k < i && d.profileAt(k) in named ==> !HasEntrypoint(d, d.profileAt(k), e, format)
    {
      var profile := d.profileAt(i);
      var j := 0;
      while required[j] != ProfileNone
        invariant 0 <= j <= |named|
        invariant found ==> Matches(d, required, e, format)
        invariant !found ==> forall k :: 0 <= k < i && d.profileAt(k) in named ==> !HasEntrypoint(d, d.profileAt(k), e, format)
        invariant !found && profile in named[..j] ==> !HasEntrypoint(d, profile, e, format)
        decreases |named| - j
      {
        if required[j] == profile {
          var has := HasVaapiEntrypoint(d, profile, e, format);
          if has {
            assert Lists(d, profile) && profile in named;
            found := true;
          }
        }
        j := j + 1;
      }
      assert named[..j] == named;
      i := i + 1;
    }
  }

  ghost predicate Within(a: seq<Profile>, b: seq<Profile>)
  {
    forall p :: p in Named(a) ==> p in Named(b)
  }

  /** Requiring less is never harder, and neither order nor repetition matters. */
  lemma MatchesDependsOnSet(d: Driver, a: seq<Profile>, b: seq<Profile>, e: Entrypoint, format: bv32)
    ensures Within(a, b) && Matches(d, a, e, format) ==> Matches(d, b, e, format)
    ensures Within(a, b) && Within(b, a) ==> (Matches(d, a, e, format) <==> Matches(d, b, e, format))
  {
  }

  // ---------- format bits ----------

  /** A mask of one bit. */
  predicate IsBit(bit: bv32)
  {
    bit != 0 && bit & (bit - 1) == 0
  }

  /** The lowest bit that is set. */
  function LowestBit(v: bv32): bv32
  {
    v & (0 - v)
  }

  lemma LowestBitIsBit(v: bv32)
    requires v != 0
    ensures IsBit(LowestBit(v))
  {
  }

  lemma LowestBitIsShared(a: bv32, b: bv32)
    requires a & b != 0
    ensures Overlaps(a, LowestBit(a & b)) && Overlaps(b, LowestBit(a & b))
  {
  }

  lemma BitIsShared(a: bv32, b: bv32, bit: bv32)
    requires IsBit(bit) && Overlaps(a, bit) && Overlaps(b, bit)
    ensures Overlaps(a, b)
  {
  }

  /** They have one iff there is one. */
  lemma OverlapIff(a: bv32, b: bv32)
    ensures Overlaps(a, b) <==> exists bit :: IsBit(bit) && Overlaps(a, bit) && Overlaps(b, bit)
  {
    if Overlaps(a, b) {
      LowestBitIsBit(a & b);
      LowestBitIsShared(a, b);
    }
    hide IsBit;
    hide Overlaps;
    hide LowestBit;
    if bit :| IsBit(bit) && Overlaps(a, bit) && Overlaps(b, bit) {
      BitIsShared(a, b, bit);
    }
  }

  lemma NamedIff(profiles: seq<Profile>, p: Profile)
    ensures p in Named(profiles)
            <==> exists j :: 0 <= j < |profiles| && profiles[j] == p && forall k :: 0 <= k <= j ==> profiles[k] != ProfileNone
  {
    var named := Named(profiles);
    hide Named;
    assert forall k :: 0 <= k < |named| ==> named[k] == profiles[k];
    if j :| 0 <= j < |profiles| && profiles[j] == p && forall k :: 0 <= k <= j ==> profiles[k] != ProfileNone {
      assert j < |named|;
      assert named[j] == p;
    }
  }

  /** The driver's answer for required profile j, which it lists in place i, has this bit. */
  predicate Answers(d: Driver, required: seq<Profile>, e: Entrypoint, i: int, j: int, bit: bv32)
  {
    && d.maxProfiles > 0 && d.profileCount.Some? && 0 <= i < d.profileCount.value
    && 0 <= j < |required| && required[j] == d.profileAt(i) && (forall k :: 0 <= k <= j ==> required[k] != ProfileNone)
    && d.answersAttributes(required[j], e) && Overlaps(d.attribute(required[j], e, RtFormat).value, bit)
  }

  /** A match in the driver's own answers: a profile in front of the terminator that the driver
      lists and whose answer shares a bit with the format. */
  lemma MatchesIff(d: Driver, required: seq<Profile>, e: Entrypoint, format: bv32)
    ensures Matches(d, required, e, format)
            <==> exists i, j, bit :: Answers(d, required, e, i, j, bit) && IsBit(bit) && Overlaps(format, bit)
  {
    hide Overlaps;
    hide IsBit;
    hide Named;
    if Matches(d, required, e, format) {
      var p :| p in Named(required) && Lists(d, p) && HasEntrypoint(d, p, e, format);
      NamedIff(required, p);
      OverlapIff(d.attribute(p, e, RtFormat).value, format);
      var i :| 0 <= i < d.profileCount.value && d.profileAt(i) == p;
      var j :| 0 <= j < |required| && required[j] == p && forall k :: 0 <= k <= j ==> required[k] != ProfileNone;
      var bit :| IsBit(bit) && Overlaps(d.attribute(p, e, RtFormat).value, bit) && Overlaps(format, bit);
      assert Answers(d, required, e, i, j, bit);
    }
    if i, j, bit :| Answers(d, required, e, i, j, bit) && IsBit(bit) && Overlaps(format, bit) {
      NamedIff(required, required[j]);
      OverlapIff(d.attribute(required[j], e, RtFormat).value, format);
      assert Lists(d, required[j]);
    }
  }

  lemma OverlapsEither(v: bv32, f: bv32, g: bv32)
    ensures !Overlaps(v, 0)
    ensures Overlaps(v, f | g) <==> Overlaps(v, f) || Overlaps(v, g)
  {
    assert v & (f | g) == (v & f) | (v & g);
  }

  /** Asking for no format finds nothing, and asking for two at once finds either. */
  lemma FormatsAreAlternatives(d: Driver, required: seq<Profile>, e: Entrypoint, f: bv32, g: bv32)
    ensures !Matches(d, required, e, 0)
    ensures Matches(d, required, e, f | g) <==> Matches(d, required, e, f) || Matches(d, required, e, g)
  {
    hide Overlaps;
    hide Lists;
    hide Named;
    var both := f | g;
    forall p
      ensures !HasEntrypoint(d, p, e, 0)
      ensures HasEntrypoint(d, p, e, both) <==> HasEntrypoint(d, p, e, f) || HasEntrypoint(d, p, e, g)
    {
      OverlapsEither(d.attribute(p, e, RtFormat).value, f, g);
    }
    hide HasEntrypoint;
  }

  predicate Usable(d: Driver)
  {
    d.displayValid && d.initializes
  }

  predicate SupportsFormats(d: Driver, profiles: seq<Profile>, e: Entrypoint, format: bv32)
  {
    Usable(d) && Matches(d, profiles, e, format)
  }

  method IsVaapiSupportFormats(d: Driver, profiles: seq<Profile>, e: Entrypoint, format: bv32) returns (found: bool)
    requires ProfileNone in profiles
    ensures found <==> SupportsFormats(d, profiles, e, format)
  {
    if !d.displayValid {
      return false;
    }
    if !d.initializes {
      return false;
    }
    found := MatchVaapiCapabilities(d, profiles, e, format);
  }

  // ---------- entrypoints and attributes ----------

  predicate OffersEntrypoint(d: Driver, p: Profile, e: Entrypoint)
  {
    && d.entrypointCount(p).Some?
    && d.entrypointCount(p).value <= d.maxEntrypoints
    && exists i :: 0 <= i < d.entrypointCount(p).value && d.entrypointAt(p, i) == e
  }

  method IsEntrypointSupported(d: Driver, p: Profile, e: Entrypoint) returns (found: bool)
    ensures found <==> OffersEntrypoint(d, p, e)
  {
    found := false;
    var count := d.entrypointCount(p);
    if count.None? {
      return;
    }
    if count.value < 0 || count.value > d.maxEntrypoints {
      return;
    }
    var i := 0;
    while i < count.value
      invariant 0 <= i <= count.value
      invariant forall k :: 0 <= k < i ==> d.entrypointAt(p, k) != e
    {
      if d.entrypointAt(p, i) == e {
        return true;
      }
      i := i + 1;
    }
  }

  predicate HasAll(value: bv32, required: bv32)
  {
    value & required == required
  }

  lemma SomethingMissing(value: bv32, required: bv32)
    requires !HasAll(value, required)
    ensures required & !value != 0
  {
  }

  lemma MissingBit(value: bv32, required: bv32)
    requires !HasAll(value, required)
    ensures var bit := LowestBit(required & !value); IsBit(bit) && Overlaps(required, bit) && !Overlaps(value, bit)
  {
    hide LowestBit;
    hide IsBit;
    hide Overlaps;
    hide HasAll;
    SomethingMissing(value, required);
    LowestBitIsBit(required & !value);
    LowestBitIsShared(required, !value);
    NotBoth(value, LowestBit(required & !value));
  }

  lemma NotBoth(value: bv32, bit: bv32)
    requires IsBit(bit) && Overlaps(!value, bit)
    ensures !Overlaps(value, bit)
  {
  }

  lemma BitIsThere(value: bv32, required: bv32, bit: bv32)
    requires HasAll(value, required) && Overlaps(required, bit)
    ensures Overlaps(value, bit)
  {
  }

  /** A value has all that is required iff it has every bit of it. */
  lemma HasAllIff(value: bv32, required: bv32)
    ensures HasAll(value, required) <==> forall bit :: IsBit(bit) && Overlaps(required, bit) ==> Overlaps(value, bit)
  {
    if !HasAll(value, required) {
      MissingBit(value, required);
    } else {
      forall bit | IsBit(bit) && Overlaps(required, bit)
        ensures Overlaps(value, bit)
      {
        BitIsThere(value, required, bit);
      }
    }
    hide HasAll;
    hide IsBit;
    hide Overlaps;
    hide LowestBit;
  }

  function Answer(d: Driver, p: Profile, e: Entrypoint, kind: AttribType): Attrib
  {
    d.attribute(p, e, kind)
  }

  predicate Offers(d: Driver, p: Profile, e: Entrypoint, required: Attrib)
  {
    var attrib := Answer(d, p, e, required.kind);
    attrib.kind == required.kind && HasAll(attrib.value, required.value)
  }

  predicate SupportsAttribs(d: Driver, p: Profile, e: Entrypoint, required: seq<Attrib>)
  {
    d.answersAttributes(p, e) && forall i :: 0 <= i < |required| ==> Offers(d, p, e, required[i])
  }

  /** vaGetConfigAttributes: the driver fills in the attributes it is asked for. */
  method FillAttribs(d: Driver, p: Profile, e: Entrypoint, attribs: array<Attrib>)
    modifies attribs
    ensures forall k :: 0 <= k < attribs.Length ==> attribs[k] == Answer(d, p, e, old(attribs[k].kind))
  {
    var i := 0;
    while i < attribs.Length
      invariant 0 <= i <= attribs.Length
      invariant forall k :: 0 <= k < i ==> attribs[k] == Answer(d, p, e, old(attribs[k].kind))
      invariant forall k :: i <= k < attribs.Length ==> attribs[k] == old(attribs[k])
    {
      attribs[i] := Answer(d, p, e, attribs[i].kind);
      i := i + 1;
    }
  }

  /** The required attributes with their values cleared. */
  method ClearedCopy(required: seq<Attrib>) returns (attribs: array<Attrib>)
    ensures fresh(attribs) && attribs.Length == |required|
    ensures forall k :: 0 <= k < |required| ==> attribs[k] == Attrib(required[k].kind, 0)
  {
    attribs := new Attrib[|required|](i requires 0 <= i < |required| => required[i]);
    var i := 0;
    while i < |required|
      invariant 0 <= i <= |required|
      invariant forall k :: 0 <= k < i ==> attribs[k] == Attrib(required[k].kind, 0)
      invariant forall k :: i <= k < |required| ==> attribs[k] == required[k]
    {
      attribs[i] := attribs[i].(value := 0);
      i := i + 1;
    }
  }

  /** Copied, cleared, filled in by the driver and compared. */
  method AreAttribsSupported(d: Driver, p: Profile, e: Entrypoint, required: seq<Attrib>) returns (supported: bool)
    ensures supported <==> SupportsAttribs(d, p, e, required)
  {
    hide HasAll;
    hide Answer;
    var attribs := ClearedCopy(required);
    if !d.answersAttributes(p, e) {
      return false;
    }
    FillAttribs(d, p, e, attribs);
    var i := 0;
    while i < |required|
      invariant 0 <= i <= |required|
      invariant forall k :: 0 <= k < i ==> Offers(d, p, e, required[k])
    {
      if attribs[i].kind != required[i].kind || !HasAll(attribs[i].value, required[i].value) {
        assert !Offers(d, p, e, required[i]);
        return false;
      }
      i := i + 1;
    }
    return true;
  }

  predicate SupportsAttribsOpened(d: Driver, p: Profile, e: Entrypoint, required: seq<Attrib>)
  {
    Usable(d) && SupportsAttribs(d, p, e, required)
  }

  // ---------- the largest surface ----------

  /** The value of the last width (height) in the list. */
  function LastWidth(attribs: seq<SurfaceAttrib>): (r: int32)
  {
    if attribs == [] then 0
    else
      var last := attribs[|attribs| - 1];
      if last.MaxWidth? then last.value else LastWidth(attribs[..|attribs| - 1])
  }

  function LastHeight(attribs: seq<SurfaceAttrib>): (r: int32)
  {
    if attribs == [] then 0
    else
      var last := attribs[|attribs| - 1];
      if last.MaxHeight? then last.value else LastHeight(attribs[..|attribs| - 1])
  }

  /** Nothing behind position i changes what is found up to it, and nothing is found where
      there is nothing. */
  lemma {:induction false} LastOnesCount(attribs: seq<SurfaceAttrib>, i: nat)
    requires i <= |attribs|
    ensures (forall k :: i <= k < |attribs| ==> !attribs[k].MaxWidth?) ==> LastWidth(attribs) == LastWidth(attribs[..i])
    ensures (forall k :: i <= k < |attribs| ==> !attribs[k].MaxHeight?) ==> LastHeight(attribs) == LastHeight(attribs[..i])
    decreases |attribs|
  {
    if i == |attribs| {
      assert attribs[..i] == attribs;
    } else {
      var rest := attribs[..|attribs| - 1];
      LastOnesCount(rest, i);
      assert rest[..i] == attribs[..i];
    }
  }

  /** The largest surface of a profile, if its driver gives one of positive size. */
  function LargestSurface(d: Driver, p: Profile, e: Entrypoint): (r: Option<Size>)
    ensures r.Some? ==> r.value.width > 0 && r.value.height > 0
  {
    if !d.createsConfig(p, e) || d.surfaceAttribCount(p, e) in {None, Some(0)} || d.surfaceAttribs(p, e).None? then None
    else
      var attribs := d.surfaceAttribs(p, e).value;
      if LastWidth(attribs) > 0 && LastHeight(attribs) > 0 then Some(Size(LastWidth(attribs), LastHeight(attribs)))
      else None
  }

  method GetMaxResolution(d: Driver, p: Profile, e: Entrypoint) returns (ok: bool, width: int32, height: int32)
    ensures ok <==> LargestSurface(d, p, e).Some?
    ensures ok ==> width > 0 && height > 0 && LargestSurface(d, p, e) == Some(Size(width, height))
  {
    width, height := 0, 0;
    if !d.createsConfig(p, e) {
      return false, width, height;
    }
    var count := d.surfaceAttribCount(p, e);
    if count.None? {
      return false, width, height;
    }
    if count.value == 0 {
      return false, width, height;
    }
    var answer := d.surfaceAttribs(p, e);
    if answer.None? {
      return false, width, height;
    }
    var attribs := answer.value;
    var j := 0;
    while j < |attribs|
      invariant 0 <= j <= |attribs|
      invariant width == LastWidth(attribs[..j]) && height == LastHeight(attribs[..j])
    {
      assert attribs[..j + 1][..j] == attribs[..j];
      match attribs[j] {
        case MaxWidth(value) => width := value;
        case MaxHeight(value) => height := value;
        case OtherSurfaceAttrib =>
      }
      j := j + 1;
    }
    assert attribs[..j] == attribs;
    return width > 0 && height > 0, width, height;
  }

  // ---------- the largest resolution among profiles ----------

  /** The size a profile contributes, if it survives the filters. */
  function Candidate(d: Driver, p: Profile, e: Entrypoint, format: bv32): (r: Option<Size>)
    ensures r.Some? ==> r.value.width > 0 && r.value.height > 0
  {
    if OffersEntrypoint(d, p, e) && SupportsAttribs(d, p, e, [Attrib(RtFormat, format)]) then LargestSurface(d, p, e)
    else None
  }

  function Candidates(d: Driver, profiles: seq<Profile>, e: Entrypoint, format: bv32): (r: seq<Size>)
    ensures Positive(r)
  {
    if profiles == [] then []
    else
      var first := Candidate(d, profiles[0], e, format);
      (if first.Some? then [first.value] else []) + Candidates(d, profiles[1..], e, format)
  }

  lemma {:induction false} CandidatesAppend(d: Driver, profiles: seq<Profile>, p: Profile, e: Entrypoint, format: bv32)
    ensures Candidates(d, profiles + [p], e, format)
            == Candidates(d, profiles, e, format)
               + if Candidate(d, p, e, format).Some? then [Candidate(d, p, e, format).value] else []
  {
    hide Candidate;
    if profiles == [] {
      assert profiles + [p] == [p];
    } else {
      assert (profiles + [p])[1..] == profiles[1..] + [p];
      CandidatesAppend(d, profiles[1..], p, e, format);
    }
  }

  /** A size is a candidate iff some profile of the list contributes it. */
  lemma {:induction false} CandidatesIff(d: Driver, profiles: seq<Profile>, e: Entrypoint, format: bv32, s: Size)
    ensures s in Candidates(d, profiles, e, format)
            <==> exists i :: 0 <= i < |profiles| && Candidate(d, profiles[i], e, format) == Some(s)
  {
    hide Candidate;
    if profiles == [] {
    } else {
      var rest := profiles[1..];
      CandidatesIff(d, rest, e, format, s);
      assert forall i :: 0 < i < |profiles| ==> profiles[i] == rest[i - 1];
      if k :| 0 <= k < |rest| && Candidate(d, rest[k], e, format) == Some(s) {
        assert profiles[k + 1] == rest[k];
      }
    }
  }

  /** The resolution a list of profiles reaches: the running maximum over the survivors. */
  function Reached(d: Driver, profiles: seq<Profile>, e: Entrypoint, format: bv32): (r: Size)
  {
    if Usable(d) then Best(Candidates(d, Named(profiles), e, format)) else NOTHING
  }

  method GetVaapiMaxResolution(d: Driver, profiles: seq<Profile>, e: Entrypoint, format: bv32)
    returns (ok: bool, width: int32, height: int32)
    requires ProfileNone in profiles
    ensures width >= 0 && height >= 0 && Size(width, height) == Reached(d, profiles, e, format)
    ensures ok <==> Usable(d) && Candidates(d, Named(profiles), e, format) != []
  {
    width, height := 0, 0;
    if !d.displayValid {
      return false, width, height;
    }
    if !d.initializes {
      return false, width, height;
    }
    ghost var named := Named(profiles);
    var i := 0;
    while profiles[i] != ProfileNone
      invariant 0 <= i <= |named| && width >= 0 && height >= 0
      invariant Size(width, height) == Best(Candidates(d, named[..i], e, format))
      decreases |named| - i
    {
      var p := profiles[i];
      CandidateStep(d, named, i, e, format);
      i := i + 1;
      var offered := IsEntrypointSupported(d, p, e);
      if !offered {
        continue;
      }
      var supported := AreAttribsSupported(d, p, e, [Attrib(RtFormat, format)]);
      if !supported {
        continue;
      }
      var found, w, h := GetMaxResolution(d, p, e);
      if !found {
        continue;
      }
      if width <= w && height <= h {
        width, height := w, h;
      }
    }
    assert named[..i] == named;
    BestIsMaximal(Candidates(d, named, e, format));
    return width > 0 && height > 0, width, height;
  }

  lemma CandidateStep(d: Driver, named: seq<Profile>, i: nat, e: Entrypoint, format: bv32)
    requires i < |named|
    ensures var before, c := Best(Candidates(d, named[..i], e, format)), Candidate(d, named[i], e, format);
            Best(Candidates(d, named[..i + 1], e, format))
            == if c.Some? && Covers(c.value, before) then c.value else before
  {
    hide Candidate;
    assert named[..i + 1] == named[..i] + [named[i]];
    CandidatesAppend(d, named[..i], named[i], e, format);
    var sizes := Candidates(d, named[..i], e, format);
    if Candidate(d, named[i], e, format).Some? {
      KeepAppend(NOTHING, sizes, Candidate(d, named[i], e, format).value);
    } else {
      assert sizes + [] == sizes;
    }
  }
}
