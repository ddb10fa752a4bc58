/** util_v4l2.c over a driver with fixed answers: format support, the largest frame size and
    the scan of the bitrate mode menu. */
module V4l2 {
  import opened MachineInts
  import opened Options
  import opened Resolutions

  datatype Fourcc = H264 | H264Slice | Vp8 | Vp8Frame | Vp9 | Vp9Frame | Av1 | Av1Frame | Hevc | HevcSlice
                  | Mt2t | Mm21 | OtherFourcc(code: uint32)

  datatype Queue = OutputQueue | CaptureQueue

  datatype FrameSize = Discrete(width: uint32, height: uint32)
                     | Range(maxWidth: uint32, maxHeight: uint32)
                     | OtherFrameSize

  /** What the ioctls answer. None is a failed call; an enumeration fails behind its last
      entry. */
  datatype Driver = Driver(
    capabilities: Option<bv32>,
    formats: Queue -> seq<Fourcc>,
    frameSizes: Fourcc -> seq<FrameSize>,
    setOutputFormat: Fourcc -> Option<Fourcc>,
    setParameters: (Fourcc, uint32) -> bool,
    captureFormat: (Fourcc, uint32) -> Option<Fourcc>,
    bitrateModes: Option<(int32, int32)>,
    queryMenu: uint32 -> bool)

  const CAP_STREAMING: bv32 := 0x0400_0000
  const CAP_VIDEO_M2M_MPLANE: bv32 := 0x0000_4000

  predicate IsAccelerator(d: Driver)
  {
    && d.capabilities.Some?
    && d.capabilities.value & CAP_STREAMING != 0
    && d.capabilities.value & CAP_VIDEO_M2M_MPLANE != 0
  }

  // ---------- formats ----------

  const STATELESS: seq<Fourcc> := [Av1Frame, HevcSlice, H264Slice, Vp8Frame, Vp9Frame]
  const FORMATS_10BPP: seq<Fourcc> := [Mt2t]
  const FORMATS_8BPP: seq<Fourcc> := [Mm21]

  method InTable(table: seq<Fourcc>, fourcc: Fourcc) returns (found: bool)
    ensures found <==> fourcc in table
  {
    found := false;
    var i := 0;
    while i < |table|
      invariant i <= |table| && fourcc !in table[..i]
    {
      if fourcc == table[i] {
        return true;
      }
      i := i + 1;
    }
  }

  predicate MatchesDepth(fourcc: Fourcc, bpp: uint32)
  {
    (bpp == 10 && fourcc == Mt2t) || (bpp == 8 && fourcc == Mm21)
  }

  method IsMatchingBppFormat(fourcc: Fourcc, bpp: uint32) returns (found: bool)
    ensures found <==> MatchesDepth(fourcc, bpp)
  {
    found := false;
    if bpp == 10 {
      found := InTable(FORMATS_10BPP, fourcc);
    } else if bpp == 8 {
      found := InTable(FORMATS_8BPP, fourcc);
    }
  }

  /** The parsed-frame formats: the driver accepts the format, its parameters at that depth
      where there are any, and does not then announce frames of another depth. */
  predicate SupportsParsedFrames(d: Driver, fourcc: Fourcc, bpp: uint32)
  {
    && d.setOutputFormat(fourcc) == Some(fourcc)
    && (if fourcc in {Av1Frame, HevcSlice, Vp9Frame} then d.setParameters(fourcc, bpp) else bpp == 8)
    && (d.captureFormat(fourcc, bpp).Some? ==> MatchesDepth(d.captureFormat(fourcc, bpp).value, bpp))
  }

  method IsStatelessDecoderFormatSupported(d: Driver, fourcc: Fourcc, bpp: uint32) returns (found: bool)
    ensures found <==> SupportsParsedFrames(d, fourcc, bpp)
  {
    found := false;
    var answer := d.setOutputFormat(fourcc);
    if answer.Some? && answer.value == fourcc {
      match fourcc
      case Av1Frame => found := d.setParameters(fourcc, bpp);
      case HevcSlice => found := d.setParameters(fourcc, bpp);
      case Vp9Frame => found := d.setParameters(fourcc, bpp);
      case _ => found := bpp == 8;
    }
    if found {
      var capture := d.captureFormat(fourcc, bpp);
      if capture.Some? {
        found := IsMatchingBppFormat(capture.value, bpp);
      }
    }
  }

  predicate Supports(d: Driver, queue: Queue, fourcc: Fourcc, bpp: uint32)
  {
    && fourcc in d.formats(queue)
    && (if fourcc in STATELESS then SupportsParsedFrames(d, fourcc, bpp) else bpp == 8)
  }

  /** Enumerates all formats of the queue, the wanted one found or not. */
  method IsV4l2SupportFormat(d: Driver, queue: Queue, fourcc: Fourcc, bpp: uint32) returns (found: bool)
    requires |d.formats(queue)| < TWO_31
    ensures found <==> Supports(d, queue, fourcc, bpp)
  {
    found := false;
    var i: int32 := 0;
    while i < |d.formats(queue)|
      invariant 0 <= i <= |d.formats(queue)|
      invariant found <==> fourcc in d.formats(queue)[..i]
    {
      if d.formats(queue)[i] == fourcc {
        found := true;
      }
      i := i + 1;
    }
    assert d.formats(queue)[..i] == d.formats(queue);
    var stateless := InTable(STATELESS, fourcc);
    if found && stateless {
      found := IsStatelessDecoderFormatSupported(d, fourcc, bpp);
    } else if bpp != 8 {
      found := false;
    }
  }

  // ---------- frame sizes ----------

  /** The discrete sizes of an enumeration. */
  function Discretes(sizes: seq<FrameSize>): (r: seq<Size>)
  {
    if sizes == [] then [] else IfDiscrete(sizes[0]) + Discretes(sizes[1..])
  }

  function IfDiscrete(s: FrameSize): seq<Size>
  {
    if s.Discrete? then [Size(s.width, s.height)] else []
  }

  lemma {:induction false} DiscretesAppend(sizes: seq<FrameSize>, s: FrameSize)
    ensures Discretes(sizes + [s]) == Discretes(sizes) + IfDiscrete(s)
  {
    hide IfDiscrete;
    if sizes == [] {
      assert sizes + [s] == [s];
    } else {
      assert (sizes + [s])[1..] == sizes[1..] + [s];
      DiscretesAppend(sizes[1..], s);
    }
  }

  /** Where the first range is. */
  function FirstRange(sizes: seq<FrameSize>): (n: nat)
    ensures n <= |sizes| && (n < |sizes| ==> sizes[n].Range?)
    ensures forall i :: 0 <= i < n ==> !sizes[i].Range?
  {
    if sizes == [] || sizes[0].Range? then 0 else 1 + FirstRange(sizes[1..])
  }

  /** The largest size as the driver's enumeration tells it: the upper end of its first range,
      or what the running maximum makes of its discrete sizes. */
  function Largest(sizes: seq<FrameSize>): (r: Size)
  {
    var n := FirstRange(sizes);
    if n < |sizes| then Size(sizes[n].maxWidth, sizes[n].maxHeight) else Best(Discretes(sizes))
  }

  /** A size that the signed result can express. */
  predicate IsUsable(s: Size)
  {
    0 < s.width < TWO_31 && 0 < s.height < TWO_31
  }

  /** The loop compares unsigned sizes with its signed result, so it keeps the running maximum
      of the unsigned sizes whatever their sign bit; the sign decides only the answer. */
  method GetV4l2MaxResolution(sizes: seq<FrameSize>) returns (ok: bool, width: int32, height: int32)
    requires |sizes| < TWO_32
    ensures Size(ToUint32(width), ToUint32(height)) == Largest(sizes)
    ensures ok <==> IsUsable(Largest(sizes))
  {
    width, height := 0, 0;
    var index: uint32 := 0;
    ghost var n := FirstRange(sizes);
    while index < |sizes|
      invariant index <= n
      invariant Size(ToUint32(width), ToUint32(height)) == Best(Discretes(sizes[..index]))
      decreases |sizes| - index
    {
      var size := sizes[index];
      match size {
        case Discrete(w, h) =>
          if w >= ToUint32(width) && h >= ToUint32(height) {
            width, height := ToInt32(w), ToInt32(h);
          }
        case Range(w, h) =>
          width, height := ToInt32(w), ToInt32(h);
          break;
        case OtherFrameSize =>
      }
      assert sizes[..index + 1] == sizes[..index] + [size];
      DiscretesAppend(sizes[..index], size);
      if size.Discrete? {
        KeepAppend(NOTHING, Discretes(sizes[..index]), Size(size.width, size.height));
      } else {
        assert Discretes(sizes[..index]) + [] == Discretes(sizes[..index]);
      }
      index := Next(index);
    }
    assert index == |sizes| ==> sizes[..index] == sizes;
    return width > 0 && height > 0, width, height;
  }

  /** A discrete size, or the end of a range. */
  function SizeOf(s: FrameSize): Size
    requires !s.OtherFrameSize?
  {
    if s.Discrete? then Size(s.width, s.height) else Size(s.maxWidth, s.maxHeight)
  }

  /** One of the frame sizes, discrete or the end of a range, meets the bound. */
  predicate SomeSize(sizes: seq<FrameSize>, bound: Size)
  {
    exists i :: 0 <= i < |sizes| && !sizes[i].OtherFrameSize? && Covers(SizeOf(sizes[i]), bound)
  }

  lemma {:induction false} DiscretesIff(sizes: seq<FrameSize>, s: Size)
    ensures s in Discretes(sizes)
            <==> exists i :: 0 <= i < |sizes| && sizes[i].Discrete? && s == Size(sizes[i].width, sizes[i].height)
  {
    if sizes == [] {
    } else {
      var rest := sizes[1..];
      DiscretesIff(rest, s);
      assert forall i :: 0 < i < |sizes| ==> sizes[i] == rest[i - 1];
      if k :| 0 <= k < |rest| && rest[k].Discrete? && s == Size(rest[k].width, rest[k].height) {
        assert sizes[k + 1] == rest[k];
      }
    }
  }

  /** Whatever bound the result meets, some frame size meets, whatever the driver enumerates. */
  lemma LargestIsSome(sizes: seq<FrameSize>, bound: Size)
    requires bound.width > 0 || bound.height > 0
    ensures Covers(Largest(sizes), bound) ==> SomeSize(sizes, bound)
  {
    var n := FirstRange(sizes);
    if n == |sizes| && Covers(Best(Discretes(sizes)), bound) {
      TestIsSound(Discretes(sizes), bound);
      var c :| c in Discretes(sizes) && Covers(c, bound);
      DiscretesIff(sizes, c);
    }
  }

  /** The first range decides, whatever comes before or after it. */
  lemma FirstRangeDecides(sizes: seq<FrameSize>, i: nat)
    requires i < |sizes| && sizes[i].Range? && forall k :: 0 <= k < i ==> !sizes[k].Range?
    ensures Largest(sizes) == Size(sizes[i].maxWidth, sizes[i].maxHeight)
  {
    assert FirstRange(sizes) == i;
  }

  /** Nothing with a size is enumerated. */
  predicate NoSizes(sizes: seq<FrameSize>)
  {
    forall i :: 0 <= i < |sizes| ==> sizes[i].OtherFrameSize?
  }

  /** Entry i is the first range, or if there is none some discrete size, and covers every size
      enumerated. */
  predicate DecidesAndCovers(sizes: seq<FrameSize>, i: int)
  {
    && 0 <= i < |sizes| && !sizes[i].OtherFrameSize?
    && (forall k :: 0 <= k < (if sizes[i].Range? then i else |sizes|) ==> !sizes[k].Range?)
    && forall j :: 0 <= j < |sizes| && !sizes[j].OtherFrameSize? ==> Covers(SizeOf(sizes[i]), SizeOf(sizes[j]))
  }

  /** Testing the result against these bounds finds out whether some size meets them. */
  ghost predicate TestIsExact(sizes: seq<FrameSize>, positive: bool)
  {
    forall bound: Size | (if positive then bound.width > 0 && bound.height > 0 else bound != NOTHING) ::
      Covers(Largest(sizes), bound) <==> SomeSize(sizes, bound)
  }

  /** No size is empty in one dimension. */
  predicate NoneEmpty(sizes: seq<FrameSize>)
  {
    forall i :: 0 <= i < |sizes| && !sizes[i].OtherFrameSize? ==> SizeOf(sizes[i]).width > 0 && SizeOf(sizes[i]).height > 0
  }

  lemma DecidingIsLargest(sizes: seq<FrameSize>, i: int)
    requires DecidesAndCovers(sizes, i)
    ensures Largest(sizes) == SizeOf(sizes[i])
  {
    if sizes[i].Range? {
      FirstRangeDecides(sizes, i);
    } else {
      var d := SizeOf(sizes[i]);
      assert FirstRange(sizes) == |sizes|;
      forall c | c in Discretes(sizes)
        ensures Covers(d, c)
      {
        DiscretesIff(sizes, c);
      }
      DiscretesIff(sizes, d);
      DominatingIsBest(Discretes(sizes), d);
    }
  }

  lemma LargestIsEnumerated(sizes: seq<FrameSize>) returns (i: nat)
    requires !NoSizes(sizes)
    ensures i < |sizes| && !sizes[i].OtherFrameSize? && SizeOf(sizes[i]) == Largest(sizes)
    ensures forall k :: 0 <= k < (if sizes[i].Range? then i else |sizes|) ==> !sizes[k].Range?
  {
    i := FirstRange(sizes);
    if i == |sizes| {
      var k :| 0 <= k < |sizes| && !sizes[k].OtherFrameSize?;
      DiscretesIff(sizes, SizeOf(sizes[k]));
      BestIsMaximal(Discretes(sizes));
      DiscretesIff(sizes, Largest(sizes));
      i :| 0 <= i < |sizes| && sizes[i].Discrete? && Largest(sizes) == Size(sizes[i].width, sizes[i].height);
    }
  }

  lemma CoveredIfExact(sizes: seq<FrameSize>, positive: bool)
    requires !NoSizes(sizes) && TestIsExact(sizes, positive) && (positive ==> NoneEmpty(sizes))
    ensures exists i :: DecidesAndCovers(sizes, i)
  {
    var i := LargestIsEnumerated(sizes);
    forall j | 0 <= j < |sizes| && !sizes[j].OtherFrameSize?
      ensures Covers(SizeOf(sizes[i]), SizeOf(sizes[j]))
    {
      assert SomeSize(sizes, SizeOf(sizes[j]));
    }
    assert DecidesAndCovers(sizes, i);
  }

  lemma ExactIfCovered(sizes: seq<FrameSize>, positive: bool)
    requires NoSizes(sizes) || exists i :: DecidesAndCovers(sizes, i)
    ensures TestIsExact(sizes, positive)
  {
    if NoSizes(sizes) {
      assert FirstRange(sizes) == |sizes|;
      if Discretes(sizes) != [] {
        DiscretesIff(sizes, Discretes(sizes)[0]);
      }
    } else {
      var i :| DecidesAndCovers(sizes, i);
      DecidingIsLargest(sizes, i);
    }
    hide Largest;
  }

  /** Whatever mixture of ranges and discrete sizes a driver enumerates: the test is exact for
      every bound but 0x0 iff the first range, or without one some discrete size, covers every
      size enumerated. For positive bounds the same holds of enumerations without empty sizes. */
  lemma LargestTestExactIff(sizes: seq<FrameSize>)
    ensures TestIsExact(sizes, false) <==> NoSizes(sizes) || exists i :: DecidesAndCovers(sizes, i)
    ensures NoneEmpty(sizes) ==>
              (TestIsExact(sizes, true) <==> NoSizes(sizes) || exists i :: DecidesAndCovers(sizes, i))
  {
    if NoSizes(sizes) || exists i :: DecidesAndCovers(sizes, i) {
      ExactIfCovered(sizes, false);
      ExactIfCovered(sizes, true);
    } else {
      if TestIsExact(sizes, false) {
        CoveredIfExact(sizes, false);
      }
      if NoneEmpty(sizes) && TestIsExact(sizes, true) {
        CoveredIfExact(sizes, true);
      }
    }
  }

  /** Sizes that the signed result can express, one by one. */
  ghost predicate AllUsableDiscrete(sizes: seq<FrameSize>)
  {
    forall i :: 0 <= i < |sizes| ==> sizes[i].Discrete? && IsUsable(Size(sizes[i].width, sizes[i].height))
  }

  lemma {:induction false} DiscretesAreUsable(sizes: seq<FrameSize>)
    requires AllUsableDiscrete(sizes)
    ensures |Discretes(sizes)| == |sizes| && forall s :: s in Discretes(sizes) ==> IsUsable(s)
  {
    if sizes == [] {
    } else {
      DiscretesAreUsable(sizes[1..]);
    }
  }

  /** With discrete sizes, the query succeeds iff there is one, and a test of its result
      against a bound finds out whether some size meets the bound, for every bound, iff one of
      the sizes dominates the others. */
  lemma DiscreteSizeTestExactIff(sizes: seq<FrameSize>)
    requires AllUsableDiscrete(sizes)
    ensures IsUsable(Largest(sizes)) <==> sizes != []
    ensures (forall bound: Size :: bound.width > 0 && bound.height > 0 ==>
               (Covers(Largest(sizes), bound) <==> SomeCovers(Discretes(sizes), bound)))
            <==> sizes == [] || HasDominating(Discretes(sizes))
  {
    var candidates := Discretes(sizes);
    DiscretesAreUsable(sizes);
    BestIsMaximal(candidates);
    TestIsExactIff(candidates);
  }

  // ---------- variable bitrate ----------

  const MODE_VBR: uint32 := 0

  /** The menu index in round n of the scan. */
  function IndexAt(minimum: int32, n: nat): uint32
  {
    (ToUint32(minimum) + n) % TWO_32
  }

  /** Round n is entered and does not return. */
  predicate GoesOn(d: Driver, minimum: int32, maximum: int32, n: nat)
  {
    var index := IndexAt(minimum, n);
    ToInt32(index) <= maximum && !(d.queryMenu(index) && index == MODE_VBR)
  }

  predicate Diverges(d: Driver)
  {
    d.bitrateModes.Some? && d.bitrateModes.value.1 == TWO_31 - 1 && !d.queryMenu(MODE_VBR)
  }

  predicate SupportsVbr(d: Driver)
  {
    && d.bitrateModes.Some?
    && var (minimum, maximum) := d.bitrateModes.value;
       d.queryMenu(MODE_VBR) && (minimum <= MODE_VBR <= maximum || maximum == TWO_31 - 1)
  }

  /** Scans the menu with an unsigned index and a signed comparison. */
  method IsV4l2EncVbrSupported(d: Driver) returns (supported: bool)
    requires !Diverges(d)
    ensures supported <==> SupportsVbr(d)
  {
    if d.bitrateModes.None? {
      return false;
    }
    var (minimum, maximum) := d.bitrateModes.value;
    var index: uint32 := ToUint32(minimum);
    while ToInt32(index) <= maximum
      invariant maximum < TWO_31 - 1 ==> minimum <= ToInt32(index)
      invariant maximum < TWO_31 - 1 && d.queryMenu(MODE_VBR) && minimum <= MODE_VBR ==> ToInt32(index) <= MODE_VBR
      decreases if maximum < TWO_31 - 1 then maximum - ToInt32(index) + 1
                else if index == MODE_VBR then 0
                else TWO_32 - index
    {
      if d.queryMenu(index) {
        if index == MODE_VBR {
          return true;
        }
      }
      index := Next(index);
    }
    return false;
  }

  /** The menu holds the variable bitrate mode, within the bounds that the driver gives. */
  predicate MenuHasVbr(d: Driver)
  {
    && d.bitrateModes.Some?
    && d.bitrateModes.value.0 <= MODE_VBR <= d.bitrateModes.value.1
    && d.queryMenu(MODE_VBR)
  }

  /** With the largest maximum the comparison never fails: the scan runs on through the
      negative indices, and for ever iff it meets no variable bitrate mode. */
  lemma ScanDivergesIff(d: Driver)
    requires d.bitrateModes.Some?
    ensures var (minimum, maximum) := d.bitrateModes.value;
            (forall n: nat :: GoesOn(d, minimum, maximum, n)) <==> Diverges(d)
  {
    var (minimum, maximum) := d.bitrateModes.value;
    if Diverges(d) {
      forall n: nat
        ensures GoesOn(d, minimum, maximum, n)
      {
      }
    } else if maximum < TWO_31 - 1 {
      var n := if minimum <= maximum then maximum + 1 - minimum else 0;
      IndexWithinRange(minimum, n);
      assert !GoesOn(d, minimum, maximum, n);
    } else {
      var n := (TWO_32 - ToUint32(minimum)) % TWO_32;
      IndexComesRound(minimum);
      assert !GoesOn(d, minimum, maximum, n);
    }
  }

  /** A menu up to the largest integer without the mode. */
  const ENDLESS := Driver(
    Some(0xFFFF_FFFF), queue => [], fourcc => [], fourcc => None, (fourcc, bpp) => false, (fourcc, bpp) => None,
    Some((0, TWO_31 - 1)), index => false)

  lemma EndlessScan(n: nat)
    ensures GoesOn(ENDLESS, 0, TWO_31 - 1, n)
  {
  }

  lemma IndexWithinRange(minimum: int32, n: nat)
    requires minimum + n < TWO_31
    ensures ToInt32(IndexAt(minimum, n)) == minimum + n
  {
  }

  lemma IndexComesRound(minimum: int32)
    ensures IndexAt(minimum, (TWO_32 - ToUint32(minimum)) % TWO_32) == 0
  {
  }

  /** The scan ends, and answers what the menu says, iff its bounds leave room for one more or
      the mode is there: with the largest maximum it ends only by finding the mode, which is
      right iff the minimum is not beyond it. */
  lemma ScanIsRightIff(d: Driver)
    ensures !Diverges(d) && (SupportsVbr(d) <==> MenuHasVbr(d))
            <==> d.bitrateModes.None? || d.bitrateModes.value.1 < TWO_31 - 1
                 || (d.bitrateModes.value.0 <= MODE_VBR && d.queryMenu(MODE_VBR))
  {
  }
}
