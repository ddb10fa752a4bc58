/** detect_hw_video_acc.c and detect_resolution.c: which labels a machine gets, and which of
    them imply each other. */
module VideoLabels {
  import opened MachineInts
  import opened Options
  import opened Resolutions
  import opened DeviceSearch
  import opened V = V4l2
  import A = Vaapi

  /** Which interfaces the tool was built for. */
  datatype Build = Build(vaapi: bool, v4l2: bool)

  /** The render and the video device files; None cannot be opened. */
  datatype Machine = Machine(render: seq<Option<A.Driver>>, video: seq<Option<V.Driver>>)

  datatype Decoder = DecH264 | DecVp8 | DecVp9 | DecVp9Profile2 | DecAv1 | DecAv1TenBit | DecHevc | DecHevcTenBit
  datatype Encoder = EncH264 | EncVp8 | EncVp9 | EncAv1

  const H264_PROFILES := [A.H264Baseline, A.H264Main, A.H264High, A.H264ConstrainedBaseline, A.ProfileNone]

  function DecProfiles(c: Decoder): (r: seq<A.Profile>)
    ensures A.ProfileNone in r
  {
    match c
    case DecH264 => H264_PROFILES
    case DecVp8 => [A.Vp8Version0_3, A.ProfileNone]
    case DecVp9 => [A.Vp9Profile0, A.ProfileNone]
    case DecVp9Profile2 => [A.Vp9Profile2, A.ProfileNone]
    case DecAv1 => [A.Av1Profile0, A.ProfileNone]
    case DecAv1TenBit => [A.Av1Profile0, A.ProfileNone]
    case DecHevc => [A.HevcMain, A.ProfileNone]
    case DecHevcTenBit => [A.HevcMain10, A.ProfileNone]
  }

  function EncProfiles(c: Encoder): (r: seq<A.Profile>)
    ensures A.ProfileNone in r
  {
    match c
    case EncH264 => H264_PROFILES
    case EncVp8 => [A.Vp8Version0_3, A.ProfileNone]
    case EncVp9 => [A.Vp9Profile0, A.ProfileNone]
    case EncAv1 => [A.Av1Profile0, A.ProfileNone]
  }

  predicate IsTenBit(c: Decoder)
  {
    c.DecVp9Profile2? || c.DecAv1TenBit? || c.DecHevcTenBit?
  }

  function RtFormat(c: Decoder): bv32
  {
    if IsTenBit(c) then A.YUV420_10 else A.YUV420
  }

  function Depth(c: Decoder): uint32
  {
    if IsTenBit(c) then 10 else 8
  }

  /** The V4L2 formats of a codec: the bitstream and the parsed frames. */
  function Stream(c: Decoder): Fourcc
  {
    match c
    case DecH264 => H264
    case DecVp8 => Vp8
    case DecVp9 => Vp9
    case DecVp9Profile2 => Vp9
    case DecAv1 => Av1
    case DecAv1TenBit => Av1
    case DecHevc => Hevc
    case DecHevcTenBit => Hevc
  }

  function Parsed(c: Decoder): Fourcc
  {
    match c
    case DecH264 => H264Slice
    case DecVp8 => Vp8Frame
    case DecVp9 => Vp9Frame
    case DecVp9Profile2 => Vp9Frame
    case DecAv1 => Av1Frame
    case DecAv1TenBit => Av1Frame
    case DecHevc => HevcSlice
    case DecHevcTenBit => HevcSlice
  }

  // ---------- one device ----------

  predicate DecodesVaapi(c: Decoder, d: A.Driver)
  {
    A.SupportsFormats(d, DecProfiles(c), A.Vld, RtFormat(c))
  }

  predicate EncodesVaapi(c: Encoder, d: A.Driver)
  {
    || A.SupportsFormats(d, EncProfiles(c), A.EncSlice, A.YUV420)
    || A.SupportsFormats(d, EncProfiles(c), A.EncSliceLp, A.YUV420)
  }

  /** The device supports the profiles, and the largest resolution it reaches with them meets
      the bound. */
  predicate QuerySupportFor(d: A.Driver, profiles: seq<A.Profile>, e: A.Entrypoint, format: bv32, bound: Size)
  {
    && A.SupportsFormats(d, profiles, e, format)
    && A.Candidates(d, A.Named(profiles), e, format) != []
    && Covers(A.Reached(d, profiles, e, format), bound)
  }

  predicate DecodesVaapiAt(c: Decoder, bound: Size, d: A.Driver)
  {
    QuerySupportFor(d, DecProfiles(c), A.Vld, RtFormat(c), bound)
  }

  predicate EncodesVaapiAt(c: Encoder, bound: Size, d: A.Driver)
  {
    || QuerySupportFor(d, EncProfiles(c), A.EncSlice, A.YUV420, bound)
    || QuerySupportFor(d, EncProfiles(c), A.EncSliceLp, A.YUV420, bound)
  }

  predicate DecodesV4l2(c: Decoder, d: V.Driver)
  {
    && IsAccelerator(d)
    && (Supports(d, OutputQueue, Stream(c), Depth(c)) || Supports(d, OutputQueue, Parsed(c), Depth(c)))
  }

  predicate Is4k(d: V.Driver, queue: Queue, fourcc: Fourcc, bpp: uint32)
  {
    && IsAccelerator(d)
    && Supports(d, queue, fourcc, bpp)
    && var size := Largest(d.frameSizes(fourcc));
       IsUsable(size) && Covers(size, UHD)
  }

  predicate Decodes4kV4l2(c: Decoder, d: V.Driver)
  {
    Is4k(d, OutputQueue, Stream(c), Depth(c)) || Is4k(d, OutputQueue, Parsed(c), Depth(c))
  }

  /** The V4L2 format of the encoders that have one. */
  function EncStream(c: Encoder): Fourcc
    requires !c.EncAv1?
  {
    match c
    case EncH264 => H264
    case EncVp8 => Vp8
    case EncVp9 => Vp9
  }

  predicate EncodesV4l2(c: Encoder, d: V.Driver)
    requires !c.EncAv1?
  {
    IsAccelerator(d) && Supports(d, CaptureQueue, EncStream(c), 8)
  }

  predicate Encodes4kV4l2(c: Encoder, d: V.Driver)
    requires !c.EncAv1?
  {
    Is4k(d, CaptureQueue, EncStream(c), 8)
  }

  // ---------- the labels ----------

  const UHD_8K := Size(7680, 4320)

  predicate DetectDec(b: Build, m: Machine, c: Decoder)
  {
    if c.DecVp9Profile2? && b.vaapi then AnyDevice(m.render, d => DecodesVaapi(c, d))
    else
      || (b.vaapi && AnyDevice(m.render, d => DecodesVaapi(c, d)))
      || (b.v4l2 && AnyDevice(m.video, d => DecodesV4l2(c, d)))
  }

  predicate DetectDec4k(b: Build, m: Machine, c: Decoder)
  {
    if b.vaapi then AnyDevice(m.render, d => DecodesVaapiAt(c, UHD, d))
    else b.v4l2 && AnyDevice(m.video, d => Decodes4kV4l2(c, d))
  }

  /** The codecs that have an 8k label. */
  predicate Has8k(c: Decoder)
  {
    !c.DecVp8? && !c.DecVp9Profile2?
  }

  predicate DetectDec8k(b: Build, m: Machine, c: Decoder)
  {
    Has8k(c) && b.vaapi && AnyDevice(m.render, d => DecodesVaapiAt(c, UHD_8K, d))
  }

  predicate DetectEnc(b: Build, m: Machine, c: Encoder)
  {
    || (b.vaapi && AnyDevice(m.render, d => EncodesVaapi(c, d)))
    || (b.v4l2 && (c.EncH264? || c.EncVp8?) && AnyDevice(m.video, d => EncodesV4l2(c, d)))
  }

  predicate DetectEnc4k(b: Build, m: Machine, c: Encoder)
  {
    if b.vaapi then AnyDevice(m.render, d => EncodesVaapiAt(c, UHD, d))
    else b.v4l2 && !c.EncAv1? && AnyDevice(m.video, d => Encodes4kV4l2(c, d))
  }

  // ---------- the chain of resolutions ----------

  /** A device that satisfies the stronger predicate satisfies the weaker. */
  lemma AnyWeaker<D(!new)>(files: seq<Option<D>>, stronger: D -> bool, weaker: D -> bool)
    requires forall d :: stronger(d) ==> weaker(d)
    ensures AnyDevice(files, stronger) ==> AnyDevice(files, weaker)
  {
  }

  /** 8k decoding implies 4k decoding implies decoding, for every codec, build and machine. */
  lemma DecodeLabelsChain(b: Build, m: Machine, c: Decoder)
    ensures DetectDec8k(b, m, c) ==> DetectDec4k(b, m, c)
    ensures DetectDec4k(b, m, c) ==> DetectDec(b, m, c)
  {
    AnyWeaker(m.render, d => DecodesVaapiAt(c, UHD_8K, d), d => DecodesVaapiAt(c, UHD, d));
    AnyWeaker(m.render, d => DecodesVaapiAt(c, UHD, d), d => DecodesVaapi(c, d));
    AnyWeaker(m.video, d => Decodes4kV4l2(c, d), d => DecodesV4l2(c, d));
  }

  /** Every format on both queues, in 4k. */
  const ABLE := V.Driver(
    Some(0xFFFF_FFFF),
    queue => [H264, H264Slice, Vp8, Vp8Frame, Vp9, Vp9Frame, Av1, Av1Frame, Hevc, HevcSlice],
    fourcc => [Discrete(3840, 2160)],
    fourcc => Some(fourcc),
    (fourcc, bpp) => true,
    (fourcc, bpp) => None,
    None,
    index => false)

  const ONE_VIDEO_DEVICE := Machine([], [Some(ABLE)])

  lemma AbleReaches4k(fourcc: Fourcc)
    ensures Largest(ABLE.frameSizes(fourcc)) == UHD
  {
    var sizes := ABLE.frameSizes(fourcc);
    assert sizes[1..] == [] && FirstRange(sizes) == 1;
    assert Discretes(sizes) == [UHD];
  }

  lemma AbleIs4k(queue: Queue, fourcc: Fourcc, bpp: uint32)
    requires fourcc in ABLE.formats(queue)
    requires bpp == 8 || (bpp == 10 && fourcc in {Av1Frame, HevcSlice, Vp9Frame})
    ensures Is4k(ABLE, queue, fourcc, bpp)
  {
    hide Largest;
    AbleReaches4k(fourcc);
    assert IsAccelerator(ABLE) by { AbleAccelerates(); }
  }

  lemma AbleAccelerates()
    ensures IsAccelerator(ABLE)
  {
  }

  /** 4k encoding implies encoding on every machine, except for VP9 in a build for V4L2 alone:
      there the 4k label has a V4L2 test and the plain label has none. */
  lemma EncodeLabelsChainIff(b: Build, c: Encoder)
    ensures (forall m :: DetectEnc4k(b, m, c) ==> DetectEnc(b, m, c)) <==> !(c.EncVp9? && b.v4l2 && !b.vaapi)
  {
    if c.EncVp9? && b.v4l2 && !b.vaapi {
      AbleIs4k(CaptureQueue, Vp9, 8);
      var m := ONE_VIDEO_DEVICE;
      assert m.video[0] == Some(ABLE) && Satisfies(d => Encodes4kV4l2(c, d), ABLE);
      assert DetectEnc4k(b, m, c) && !DetectEnc(b, m, c);
    } else {
      forall m
        ensures DetectEnc4k(b, m, c) ==> DetectEnc(b, m, c)
      {
        AnyWeaker(m.render, d => EncodesVaapiAt(c, UHD, d), d => EncodesVaapi(c, d));
        if c.EncH264? || c.EncVp8? {
          AnyWeaker(m.video, d => Encodes4kV4l2(c, d), d => EncodesV4l2(c, d));
        }
      }
    }
  }

  /** The comments promise the 4k labels of these codecs for VAAPI devices alone. */
  predicate VaapiOnly(c: Decoder)
  {
    c.DecAv1? || c.DecHevc?
  }

  /** What the comments promise of a 4k decoding label: a VAAPI device, or for the other codecs
      a device of either interface. */
  predicate PromisedDec4k(b: Build, m: Machine, c: Decoder)
  {
    || (b.vaapi && AnyDevice(m.render, d => DecodesVaapiAt(c, UHD, d)))
    || (!VaapiOnly(c) && b.v4l2 && AnyDevice(m.video, d => Decodes4kV4l2(c, d)))
  }

  lemma OneVideoDeviceDecodes(c: Decoder)
    ensures AnyDevice(ONE_VIDEO_DEVICE.video, d => Decodes4kV4l2(c, d))
  {
    AbleIs4k(OutputQueue, Parsed(c), Depth(c));
    assert ONE_VIDEO_DEVICE.video[0] == Some(ABLE) && Satisfies(d => Decodes4kV4l2(c, d), ABLE);
  }

  /** A 4k label promises no more than its comment on every machine, except for AV1 and HEVC in a
      build for V4L2 alone, where video devices get it too. It is given to every machine the
      comment promises it to, except for the other codecs in a build for both interfaces, where
      no video device is looked at. */
  lemma PromiseKeptIff(b: Build, c: Decoder)
    ensures (forall m :: DetectDec4k(b, m, c) ==> PromisedDec4k(b, m, c)) <==> !(VaapiOnly(c) && b.v4l2 && !b.vaapi)
    ensures (forall m :: PromisedDec4k(b, m, c) ==> DetectDec4k(b, m, c)) <==> !(!VaapiOnly(c) && b.vaapi && b.v4l2)
  {
    OneVideoDeviceDecodes(c);
    var m := ONE_VIDEO_DEVICE;
    assert DetectDec4k(b, m, c) <==> b.v4l2 && !b.vaapi;
    assert PromisedDec4k(b, m, c) <==> !VaapiOnly(c) && b.v4l2;
  }

  // ---------- what the size test means ----------

  /** Some profile of the list contributes a size that meets the bound. */
  ghost predicate SomeProfileMeets(d: A.Driver, profiles: seq<A.Profile>, e: A.Entrypoint, format: bv32, bound: Size)
  {
    exists p :: p in A.Named(profiles) && A.Candidate(d, p, e, format).Some?
                && Covers(A.Candidate(d, p, e, format).value, bound)
  }

  lemma SomeProfileMeetsIff(d: A.Driver, profiles: seq<A.Profile>, e: A.Entrypoint, format: bv32, bound: Size)
    ensures SomeProfileMeets(d, profiles, e, format, bound)
            <==> SomeCovers(A.Candidates(d, A.Named(profiles), e, format), bound)
  {
    hide A.Candidate;
    var named := A.Named(profiles);
    var sizes := A.Candidates(d, named, e, format);
    forall s
      ensures s in sizes <==> exists i :: 0 <= i < |named| && A.Candidate(d, named[i], e, format) == Some(s)
    {
      A.CandidatesIff(d, named, e, format, s);
    }
    if SomeProfileMeets(d, profiles, e, format, bound) {
      var p :| p in named && A.Candidate(d, p, e, format).Some? && Covers(A.Candidate(d, p, e, format).value, bound);
      assert A.Candidate(d, p, e, format).value in sizes;
    }
  }

  /** The size test is sound for every list of profiles, and for every bound exact iff one
      profile's size dominates the others. */
  lemma SizeTestExactIff(d: A.Driver, profiles: seq<A.Profile>, e: A.Entrypoint, format: bv32)
    requires A.SupportsFormats(d, profiles, e, format)
    ensures forall bound: Size :: bound.width > 0 && bound.height > 0 && QuerySupportFor(d, profiles, e, format, bound)
              ==> SomeProfileMeets(d, profiles, e, format, bound)
    ensures (forall bound: Size :: bound.width > 0 && bound.height > 0 && SomeProfileMeets(d, profiles, e, format, bound)
               ==> QuerySupportFor(d, profiles, e, format, bound))
            <==> var sizes := A.Candidates(d, A.Named(profiles), e, format); sizes == [] || HasDominating(sizes)
  {
    hide A.Candidate;
    hide A.SupportsFormats;
    var sizes := A.Candidates(d, A.Named(profiles), e, format);
    assert A.Usable(d) by { SupportsFormatsUsable(d, profiles, e, format); }
    forall bound: Size | bound.width > 0 && bound.height > 0
      ensures QuerySupportFor(d, profiles, e, format, bound) <==> Covers(Best(sizes), bound)
      ensures SomeProfileMeets(d, profiles, e, format, bound) <==> SomeCovers(sizes, bound)
      ensures QuerySupportFor(d, profiles, e, format, bound) ==> SomeProfileMeets(d, profiles, e, format, bound)
    {
      SomeProfileMeetsIff(d, profiles, e, format, bound);
      TestIsSound(sizes, bound);
    }
    TestIsExactIff(sizes);
  }

  /** One H.264 profile goes wide, another is 4k, and the other two are not offered. */
  const SPLIT := A.Driver(
    true, true, 2, Some(2), i => if i == 0 then A.H264Baseline else A.H264Main,
    1, p => if p == A.H264Baseline || p == A.H264Main then Some(1) else None, (p, i) => A.Vld,
    (p, e) => true, (p, e, kind) => A.Attrib(kind, 0xFFFF_FFFF),
    (p, e) => true, (p, e) => Some(2),
    (p, e) => Some(if p == A.H264Baseline then [A.MaxWidth(8192), A.MaxHeight(1080)]
                   else [A.MaxWidth(3840), A.MaxHeight(2160)]))

  lemma SplitCandidate(p: A.Profile)
    ensures A.Candidate(SPLIT, p, A.Vld, A.YUV420)
            == if p == A.H264Baseline then Some(WIDE) else if p == A.H264Main then Some(UHD) else None
  {
    var attribs := SPLIT.surfaceAttribs(p, A.Vld).value;
    assert attribs[..1] == [attribs[0]];
    A.LastOnesCount(attribs, 1);
    if p == A.H264Baseline || p == A.H264Main {
      assert SPLIT.entrypointAt(p, 0) == A.Vld;
    }
    assert A.SupportsAttribs(SPLIT, p, A.Vld, [A.Attrib(A.RtFormat, A.YUV420)]);
  }

  lemma SplitCandidates()
    ensures A.Candidates(SPLIT, A.Named(H264_PROFILES), A.Vld, A.YUV420) == [WIDE, UHD]
  {
    hide A.Candidate;
    NamedH264();
    hide A.Named;
    var one, two, three := [A.H264Baseline], [A.H264Baseline, A.H264Main], [A.H264Baseline, A.H264Main, A.H264High];
    SplitCandidate(A.H264Baseline);
    SplitCandidate(A.H264Main);
    SplitCandidate(A.H264High);
    SplitCandidate(A.H264ConstrainedBaseline);
    A.CandidatesAppend(SPLIT, [], A.H264Baseline, A.Vld, A.YUV420);
    A.CandidatesAppend(SPLIT, one, A.H264Main, A.Vld, A.YUV420);
    A.CandidatesAppend(SPLIT, two, A.H264High, A.Vld, A.YUV420);
    A.CandidatesAppend(SPLIT, three, A.H264ConstrainedBaseline, A.Vld, A.YUV420);
    assert [] + [A.H264Baseline] == one && one + [A.H264Main] == two && two + [A.H264High] == three;
    assert A.Candidates(SPLIT, [], A.Vld, A.YUV420) == [];
    hide A.Candidates;
    assert A.Candidates(SPLIT, one, A.Vld, A.YUV420) == [WIDE];
    assert A.Candidates(SPLIT, two, A.Vld, A.YUV420) == [WIDE, UHD];
    assert A.Candidates(SPLIT, three, A.Vld, A.YUV420) == [WIDE, UHD];
    assert A.Named(H264_PROFILES) == three + [A.H264ConstrainedBaseline];
  }

  lemma SplitDecodes()
    ensures DecodesVaapi(DecH264, SPLIT)
  {
    NamedH264();
    assert SPLIT.profileAt(1) == A.H264Main && A.Lists(SPLIT, A.H264Main);
    assert A.HasEntrypoint(SPLIT, A.H264Main, A.Vld, A.YUV420);
    assert A.Named(H264_PROFILES)[1] == A.H264Main;
  }

  /** A device with a 4k H.264 profile that does not get the 4k label. */
  lemma SplitDriverMisses4k()
    ensures DecodesVaapi(DecH264, SPLIT) && SomeProfileMeets(SPLIT, DecProfiles(DecH264), A.Vld, A.YUV420, UHD)
    ensures !DecodesVaapiAt(DecH264, UHD, SPLIT)
  {
    SplitDecodes();
    SplitCandidates();
    hide A.Candidate;
    hide A.Candidates;
    hide A.Named;
    hide A.SupportsFormats;
    OrderHidesUhd();
    SomeProfileMeetsIff(SPLIT, H264_PROFILES, A.Vld, A.YUV420, UHD);
  }

  lemma SupportsFormatsUsable(d: A.Driver, profiles: seq<A.Profile>, e: A.Entrypoint, format: bv32)
    requires A.SupportsFormats(d, profiles, e, format)
    ensures A.Usable(d)
  {
  }

  /** The device supports one of the codec's formats, with a frame size of 4k or more. */
  predicate HasV4l2Size(c: Decoder, d: V.Driver)
  {
    && IsAccelerator(d)
    && ((Supports(d, OutputQueue, Stream(c), Depth(c)) && SomeSize(d.frameSizes(Stream(c)), UHD))
        || (Supports(d, OutputQueue, Parsed(c), Depth(c)) && SomeSize(d.frameSizes(Parsed(c)), UHD)))
  }

  /** Every codec but H.264 has one profile. In a build for VAAPI its 4k and 8k labels say
      exactly that some device decodes it and reaches that size with it. In another build there
      is no 8k label, and the 4k label says that some video device has a frame size of 4k. */
  lemma SingleProfileLabelsExact(b: Build, m: Machine, c: Decoder)
    requires !c.DecH264?
    ensures b.vaapi ==>
              (DetectDec4k(b, m, c) <==> AnyDevice(m.render, d => DecodesVaapi(c, d) && ReachesAlone(c, UHD, d)))
    ensures DetectDec8k(b, m, c)
            <==> Has8k(c) && b.vaapi && AnyDevice(m.render, d => DecodesVaapi(c, d) && ReachesAlone(c, UHD_8K, d))
    ensures !b.vaapi && DetectDec4k(b, m, c) ==> b.v4l2 && AnyDevice(m.video, d => HasV4l2Size(c, d))
  {
    forall d, bound: Size | bound.width > 0 && bound.height > 0
      ensures DecodesVaapiAt(c, bound, d) <==> DecodesVaapi(c, d) && ReachesAlone(c, bound, d)
    {
      OneCandidate(c, bound, d);
    }
    AnySame(m.render, d => DecodesVaapiAt(c, UHD, d), d => DecodesVaapi(c, d) && ReachesAlone(c, UHD, d));
    AnySame(m.render, d => DecodesVaapiAt(c, UHD_8K, d), d => DecodesVaapi(c, d) && ReachesAlone(c, UHD_8K, d));
    forall d | Decodes4kV4l2(c, d)
      ensures HasV4l2Size(c, d)
    {
      LargestIsSome(d.frameSizes(Stream(c)), UHD);
      LargestIsSome(d.frameSizes(Parsed(c)), UHD);
    }
    AnyWeaker(m.video, d => Decodes4kV4l2(c, d), d => HasV4l2Size(c, d));
  }

  lemma AnySame<D(!new)>(files: seq<Option<D>>, p: D -> bool, q: D -> bool)
    requires forall d :: p(d) <==> q(d)
    ensures AnyDevice(files, p) <==> AnyDevice(files, q)
  {
  }

  /** The codec's only profile contributes a size that meets the bound. */
  predicate ReachesAlone(c: Decoder, bound: Size, d: A.Driver)
    requires !c.DecH264?
  {
    var size := A.Candidate(d, DecProfiles(c)[0], A.Vld, RtFormat(c));
    size.Some? && Covers(size.value, bound)
  }

  lemma OneCandidate(c: Decoder, bound: Size, d: A.Driver)
    requires !c.DecH264? && bound.width > 0 && bound.height > 0
    ensures DecodesVaapiAt(c, bound, d) <==> DecodesVaapi(c, d) && ReachesAlone(c, bound, d)
  {
    hide A.Candidate;
    hide A.SupportsFormats;
    var profiles := DecProfiles(c);
    var p := profiles[0];
    assert profiles == [p, A.ProfileNone];
    assert A.Named(profiles) == [p] by {
      assert profiles[1..] == [A.ProfileNone];
    }
    var size := A.Candidate(d, p, A.Vld, RtFormat(c));
    assert A.Candidates(d, [p], A.Vld, RtFormat(c)) == if size.Some? then [size.value] else [];
    if A.SupportsFormats(d, profiles, A.Vld, RtFormat(c)) {
      SupportsFormatsUsable(d, profiles, A.Vld, RtFormat(c));
    }
  }

  // ---------- variable bitrate ----------

  const VBR := [A.Attrib(A.RateControl, A.RC_VBR)]
  const ENCODING := [A.EncSlice, A.EncSliceLp]

  /** One profile encodes with variable bitrate through this entrypoint. */
  predicate ProfileEncodesVbr(d: A.Driver, p: A.Profile, e: A.Entrypoint)
  {
    A.SupportsFormats(d, [p, A.ProfileNone], e, A.YUV420) && A.SupportsAttribsOpened(d, p, e, VBR)
  }

  predicate EncodesVbrVaapi(c: Encoder, d: A.Driver)
  {
    exists p, e :: p in A.Named(EncProfiles(c)) && e in ENCODING && ProfileEncodesVbr(d, p, e)
  }

  predicate EncodesVbrV4l2(c: Encoder, d: V.Driver)
    requires !c.EncAv1?
  {
    EncodesV4l2(c, d) && SupportsVbr(d)
  }

  predicate DetectEncVbr(b: Build, m: Machine, c: Encoder)
  {
    || (b.vaapi && AnyDevice(m.render, d => EncodesVbrVaapi(c, d)))
    || (b.v4l2 && (c.EncH264? || c.EncVp8?) && AnyDevice(m.video, d => EncodesVbrV4l2(c, d)))
  }

  /** A variable bitrate label implies the plain encoding label. */
  lemma VbrImpliesPlain(b: Build, m: Machine, c: Encoder)
    ensures DetectEncVbr(b, m, c) ==> DetectEnc(b, m, c)
  {
    forall d | EncodesVbrVaapi(c, d)
      ensures EncodesVaapi(c, d)
    {
      VbrDeviceEncodes(c, d);
    }
    AnyWeaker(m.render, d => EncodesVbrVaapi(c, d), d => EncodesVaapi(c, d));
    if c.EncH264? || c.EncVp8? {
      AnyWeaker(m.video, d => EncodesVbrV4l2(c, d), d => EncodesV4l2(c, d));
    }
  }

  lemma VbrDeviceEncodes(c: Encoder, d: A.Driver)
    requires EncodesVbrVaapi(c, d)
    ensures EncodesVaapi(c, d)
  {
    var p, e :| p in A.Named(EncProfiles(c)) && e in ENCODING && ProfileEncodesVbr(d, p, e);
    assert [p, A.ProfileNone][1..] == [A.ProfileNone];
    assert A.Named([p, A.ProfileNone]) == [p];
    assert A.Within([p, A.ProfileNone], EncProfiles(c));
    A.MatchesDependsOnSet(d, [p, A.ProfileNone], EncProfiles(c), e, A.YUV420);
  }

  /** are_vaapi_attribs_supported. */
  method AreVaapiAttribsSupported(d: A.Driver, p: A.Profile, e: A.Entrypoint, required: seq<A.Attrib>)
    returns (supported: bool)
    ensures supported <==> A.SupportsAttribsOpened(d, p, e, required)
  {
    if !d.displayValid {
      return false;
    }
    if !d.initializes {
      return false;
    }
    supported := A.AreAttribsSupported(d, p, e, required);
  }

  /** The nested loop over the H.264 profiles and the encoding entrypoints. */
  method IsVaapiEncH264VbrDevice(d: A.Driver) returns (found: bool)
    ensures found <==> EncodesVbrVaapi(EncH264, d)
  {
    hide A.SupportsFormats;
    hide A.SupportsAttribsOpened;
    var profiles := [A.H264Baseline, A.H264Main, A.H264High, A.H264ConstrainedBaseline];
    assert A.Named(H264_PROFILES) == profiles by { NamedH264(); }
    var i := 0;
    while i < 4
      invariant 0 <= i <= 4
      invariant forall k, e :: 0 <= k < i && e in ENCODING ==> !ProfileEncodesVbr(d, profiles[k], e)
    {
      var j := 0;
      while j < 2
        invariant 0 <= j <= 2
        invariant forall l :: 0 <= l < j ==> !ProfileEncodesVbr(d, profiles[i], ENCODING[l])
      {
        var formats := A.IsVaapiSupportFormats(d, [profiles[i], A.ProfileNone], ENCODING[j], A.YUV420);
        if formats {
          var attribs := AreVaapiAttribsSupported(d, profiles[i], ENCODING[j], VBR);
          if attribs {
            assert ProfileEncodesVbr(d, profiles[i], ENCODING[j]);
            return true;
          }
        }
        j := j + 1;
      }
      i := i + 1;
    }
    return false;
  }

  lemma NamedH264()
    ensures A.Named(H264_PROFILES) == [A.H264Baseline, A.H264Main, A.H264High, A.H264ConstrainedBaseline]
  {
    var named := A.Named(H264_PROFILES);
    assert |named| == 4;
    assert H264_PROFILES[..4] == [A.H264Baseline, A.H264Main, A.H264High, A.H264ConstrainedBaseline];
  }

  /** The loop over the encoding entrypoints of VP8 and of VP9. */
  method IsVaapiEncVbrDevice(d: A.Driver, c: Encoder) returns (found: bool)
    requires c.EncVp8? || c.EncVp9?
    ensures found <==> EncodesVbrVaapi(c, d)
  {
    hide A.SupportsFormats;
    hide A.SupportsAttribsOpened;
    var profiles := EncProfiles(c);
    var p := profiles[0];
    assert profiles == [p, A.ProfileNone];
    assert A.Named(profiles) == [p] by {
      assert profiles[1..] == [A.ProfileNone];
    }
    var i := 0;
    while i < 2
      invariant 0 <= i <= 2
      invariant forall l :: 0 <= l < i ==> !ProfileEncodesVbr(d, p, ENCODING[l])
    {
      var formats := A.IsVaapiSupportFormats(d, profiles, ENCODING[i], A.YUV420);
      if !formats {
        i := i + 1;
        continue;
      }
      var attribs := AreVaapiAttribsSupported(d, p, ENCODING[i], VBR);
      if attribs {
        assert ProfileEncodesVbr(d, p, ENCODING[i]);
        return true;
      }
      i := i + 1;
    }
    return false;
  }
}
