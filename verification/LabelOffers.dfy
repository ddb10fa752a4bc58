/** What the labels say of a machine, in the answers of its drivers; and the labels of machines
    that offer one thing only, which tell apart every codec, depth, entrypoint and size. */
module LabelOffers {
  import opened MachineInts
  import opened Options
  import opened Resolutions
  import opened DeviceSearch
  import opened V = V4l2
  import A = Vaapi
  import opened VideoLabels

  // ---------- the codecs ----------

  /** The profile belongs to the codec. */
  predicate DecodedAs(c: Decoder, p: A.Profile)
  {
    match p
    case H264Baseline => c.DecH264?
    case H264Main => c.DecH264?
    case H264High => c.DecH264?
    case H264ConstrainedBaseline => c.DecH264?
    case Vp8Version0_3 => c.DecVp8?
    case Vp9Profile0 => c.DecVp9?
    case Vp9Profile2 => c.DecVp9Profile2?
    case Av1Profile0 => c.DecAv1? || c.DecAv1TenBit?
    case HevcMain => c.DecHevc?
    case HevcMain10 => c.DecHevcTenBit?
    case _ => false
  }

  predicate EncodedAs(c: Encoder, p: A.Profile)
  {
    match p
    case H264Baseline => c.EncH264?
    case H264Main => c.EncH264?
    case H264High => c.EncH264?
    case H264ConstrainedBaseline => c.EncH264?
    case Vp8Version0_3 => c.EncVp8?
    case Vp9Profile0 => c.EncVp9?
    case Av1Profile0 => c.EncAv1?
    case _ => false
  }

  /** The bit of 4:2:0 surfaces of the codec's depth. */
  function SurfaceBit(c: Decoder): bv32
  {
    if c == DecVp9Profile2 || c == DecAv1TenBit || c == DecHevcTenBit then 0x100 else 0x1
  }

  lemma DecodedAsIff(c: Decoder, p: A.Profile)
    ensures p in A.Named(DecProfiles(c)) <==> DecodedAs(c, p)
    ensures RtFormat(c) == SurfaceBit(c)
  {
    NamedDecoders(c);
    hide A.Named;
  }

  lemma NamedDecoders(c: Decoder)
    ensures c.DecH264? ==> A.Named(DecProfiles(c)) == [A.H264Baseline, A.H264Main, A.H264High, A.H264ConstrainedBaseline]
    ensures !c.DecH264? ==>
              A.Named(DecProfiles(c)) == [DecProfiles(c)[0]] && DecProfiles(c) == [DecProfiles(c)[0], A.ProfileNone]
  {
    NamedH264();
    if !c.DecH264? {
      assert DecProfiles(c)[1..] == [A.ProfileNone];
    }
  }

  lemma EncodedAsIff(c: Encoder, p: A.Profile)
    ensures p in A.Named(EncProfiles(c)) <==> EncodedAs(c, p)
  {
    NamedH264();
    if !c.EncH264? {
      assert EncProfiles(c)[1..] == [A.ProfileNone];
    }
  }

  // ---------- labels in driver answers ----------

  /** The render device can be used, lists the profile, and answers for the entrypoint with surfaces
      that have the bit. */
  predicate Renders(d: A.Driver, p: A.Profile, e: A.Entrypoint, bit: bv32)
  {
    && d.displayValid && d.initializes && d.maxProfiles > 0
    && d.profileCount.Some? && (exists i :: 0 <= i < d.profileCount.value && d.profileAt(i) == p)
    && d.answersAttributes(p, e) && A.Overlaps(d.attribute(p, e, A.RtFormat).value, bit)
  }

  ghost predicate RendersCodec(d: A.Driver, c: Decoder)
  {
    exists p :: DecodedAs(c, p) && Renders(d, p, A.Vld, SurfaceBit(c))
  }

  predicate Encoding(e: A.Entrypoint)
  {
    e == A.EncSlice || e == A.EncSliceLp
  }

  ghost predicate RendersEncoder(d: A.Driver, c: Encoder)
  {
    exists p, e :: EncodedAs(c, p) && Encoding(e) && Renders(d, p, e, 0x1)
  }

  lemma SupportsFormatsIff(d: A.Driver, profiles: seq<A.Profile>, e: A.Entrypoint, bit: bv32)
    ensures A.SupportsFormats(d, profiles, e, bit) <==> exists p :: p in A.Named(profiles) && Renders(d, p, e, bit)
  {
    hide A.Overlaps;
    hide A.Named;
    if A.SupportsFormats(d, profiles, e, bit) {
      var p :| p in A.Named(profiles) && A.Lists(d, p) && A.HasEntrypoint(d, p, e, bit);
      assert Renders(d, p, e, bit);
    }
    if p :| p in A.Named(profiles) && Renders(d, p, e, bit) {
      assert A.Lists(d, p);
    }
  }

  lemma DecodesVaapiIff(d: A.Driver, c: Decoder)
    ensures DecodesVaapi(c, d) <==> RendersCodec(d, c)
  {
    forall p
      ensures p in A.Named(DecProfiles(c)) <==> DecodedAs(c, p)
    {
      DecodedAsIff(c, p);
    }
    DecodedAsIff(c, A.ProfileNone);
    SupportsFormatsIff(d, DecProfiles(c), A.Vld, SurfaceBit(c));
    hide A.Named;
    hide A.SupportsFormats;
    hide Renders;
    hide DecodedAs;
  }

  lemma EncodesVaapiIff(d: A.Driver, c: Encoder)
    ensures EncodesVaapi(c, d) <==> RendersEncoder(d, c)
  {
    forall p
      ensures p in A.Named(EncProfiles(c)) <==> EncodedAs(c, p)
    {
      EncodedAsIff(c, p);
    }
    SupportsFormatsIff(d, EncProfiles(c), A.EncSlice, 0x1);
    SupportsFormatsIff(d, EncProfiles(c), A.EncSliceLp, 0x1);
    hide A.Named;
    hide A.SupportsFormats;
    hide Renders;
    hide EncodedAs;
  }

  /** A bitstream format of the codec. */
  predicate StreamOf(c: Decoder, f: Fourcc)
  {
    match f
    case H264 => c.DecH264?
    case Vp8 => c.DecVp8?
    case Vp9 => c.DecVp9? || c.DecVp9Profile2?
    case Av1 => c.DecAv1? || c.DecAv1TenBit?
    case Hevc => c.DecHevc? || c.DecHevcTenBit?
    case _ => false
  }

  predicate FramesOf(c: Decoder, f: Fourcc)
  {
    match f
    case H264Slice => c.DecH264?
    case Vp8Frame => c.DecVp8?
    case Vp9Frame => c.DecVp9? || c.DecVp9Profile2?
    case Av1Frame => c.DecAv1? || c.DecAv1TenBit?
    case HevcSlice => c.DecHevc? || c.DecHevcTenBit?
    case _ => false
  }

  function BitDepth(c: Decoder): uint32
  {
    if c == DecVp9Profile2 || c == DecAv1TenBit || c == DecHevcTenBit then 10 else 8
  }

  /** The device streams from memory to memory. */
  predicate Streams(d: V.Driver)
  {
    && d.capabilities.Some?
    && d.capabilities.value & 0x0400_0000 != 0 && d.capabilities.value & 0x4000 != 0
  }

  /** The device takes parsed frames of this depth: the format is accepted as it is, with its
      parameters if it has any, and no capture format of another depth is announced. */
  predicate TakesFrames(d: V.Driver, f: Fourcc, depth: uint32)
  {
    && d.setOutputFormat(f) == Some(f)
    && (if f == Vp9Frame || f == Av1Frame || f == HevcSlice then d.setParameters(f, depth) else depth == 8)
    && (match d.captureFormat(f, depth)
        case None => true
        case Some(Mt2t) => depth == 10
        case Some(Mm21) => depth == 8
        case Some(_) => false)
  }

  /** The device takes the codec's bitstream, if that is of 8 bits, or its parsed frames. */
  predicate Takes(d: V.Driver, c: Decoder)
  {
    && Streams(d)
    && exists f :: f in d.formats(OutputQueue) &&
         ((StreamOf(c, f) && BitDepth(c) == 8) || (FramesOf(c, f) && TakesFrames(d, f, BitDepth(c))))
  }

  lemma SupportsIff(d: V.Driver, queue: Queue, c: Decoder)
    ensures StreamOf(c, Stream(c)) && FramesOf(c, Parsed(c)) && Depth(c) == BitDepth(c)
    ensures forall f :: (StreamOf(c, f) ==> f == Stream(c)) && (FramesOf(c, f) ==> f == Parsed(c))
    ensures Supports(d, queue, Stream(c), Depth(c)) <==> Stream(c) in d.formats(queue) && BitDepth(c) == 8
    ensures Supports(d, queue, Parsed(c), Depth(c)) <==> Parsed(c) in d.formats(queue) && TakesFrames(d, Parsed(c), Depth(c))
  {
    assert STATELESS[0] == Av1Frame && STATELESS[1] == HevcSlice && STATELESS[2] == H264Slice
           && STATELESS[3] == Vp8Frame && STATELESS[4] == Vp9Frame;
  }

  lemma DecodesV4l2Iff(d: V.Driver, c: Decoder)
    ensures DecodesV4l2(c, d) <==> Takes(d, c)
  {
    SupportsIff(d, OutputQueue, c);
    assert IsAccelerator(d) <==> Streams(d) by { AcceleratorIff(d); }
    hide IsAccelerator;
    hide Streams;
    hide Supports;
    hide TakesFrames;
    hide StreamOf;
    hide FramesOf;
  }

  lemma AcceleratorIff(d: V.Driver)
    ensures IsAccelerator(d) <==> Streams(d)
  {
  }

  /** The decoding label, build by build, in the answers of the devices that can be opened. In a
      build with VAAPI the label of VP9 profile 2 is for render devices alone. */
  lemma DetectDecIff(b: Build, m: Machine, c: Decoder)
    ensures DetectDec(b, m, c)
            <==> || (b.vaapi && exists i :: 0 <= i < |m.render| && m.render[i].Some? && RendersCodec(m.render[i].value, c))
                 || (b.v4l2 && !(c == DecVp9Profile2 && b.vaapi)
                     && exists i :: 0 <= i < |m.video| && m.video[i].Some? && Takes(m.video[i].value, c))
  {
    forall d ensures DecodesVaapi(c, d) <==> RendersCodec(d, c) { DecodesVaapiIff(d, c); }
    forall d ensures DecodesV4l2(c, d) <==> Takes(d, c) { DecodesV4l2Iff(d, c); }
    AnyDeviceIff(m.render, d => DecodesVaapi(c, d));
    AnyDeviceIff(m.video, d => DecodesV4l2(c, d));
    hide RendersCodec;
    hide Takes;
    hide DecodesVaapi;
    hide DecodesV4l2;
  }

  /** The device produces the encoder's bitstream. */
  predicate Makes(d: V.Driver, c: Encoder)
  {
    && Streams(d)
    && match c
       case EncH264 => H264 in d.formats(CaptureQueue)
       case EncVp8 => Vp8 in d.formats(CaptureQueue)
       case EncVp9 => Vp9 in d.formats(CaptureQueue)
       case EncAv1 => false
  }

  lemma EncodesV4l2Iff(d: V.Driver, c: Encoder)
    requires !c.EncAv1?
    ensures EncodesV4l2(c, d) <==> Makes(d, c)
  {
    AcceleratorIff(d);
    hide IsAccelerator;
    hide Streams;
    assert EncStream(c) !in STATELESS;
  }

  /** The encoding label. Video devices are looked at for H.264 and VP8 alone. */
  lemma DetectEncIff(b: Build, m: Machine, c: Encoder)
    ensures DetectEnc(b, m, c)
            <==> || (b.vaapi && exists i :: 0 <= i < |m.render| && m.render[i].Some? && RendersEncoder(m.render[i].value, c))
                 || (b.v4l2 && (c == EncH264 || c == EncVp8)
                     && exists i :: 0 <= i < |m.video| && m.video[i].Some? && Makes(m.video[i].value, c))
  {
    forall d ensures EncodesVaapi(c, d) <==> RendersEncoder(d, c) { EncodesVaapiIff(d, c); }
    AnyDeviceIff(m.render, d => EncodesVaapi(c, d));
    if c == EncH264 || c == EncVp8 {
      forall d ensures EncodesV4l2(c, d) <==> Makes(d, c) { EncodesV4l2Iff(d, c); }
      AnyDeviceIff(m.video, d => EncodesV4l2(c, d));
    }
    hide RendersEncoder;
    hide Makes;
    hide EncodesVaapi;
    hide EncodesV4l2;
  }

  // ---------- variable bitrate ----------

  /** The render device encodes through this entrypoint and controls the rate by variable bitrate. */
  predicate RendersVbr(d: A.Driver, p: A.Profile, e: A.Entrypoint)
  {
    && Renders(d, p, e, 0x1)
    && d.attribute(p, e, A.RateControl).kind == A.RateControl
    && A.Overlaps(d.attribute(p, e, A.RateControl).value, 0x4)
  }

  ghost predicate RendersEncoderVbr(d: A.Driver, c: Encoder)
  {
    exists p, e :: EncodedAs(c, p) && Encoding(e) && RendersVbr(d, p, e)
  }

  /** The scan of the bitrate menu gets to the mode, which is entry 0: within the bounds, or going
      round from beyond it because nothing is larger than the maximum. */
  predicate MenuReachesVbr(d: V.Driver)
  {
    && d.bitrateModes.Some? && d.queryMenu(0)
    && var (minimum, maximum) := d.bitrateModes.value;
       (minimum <= 0 && 0 <= maximum) || maximum == 0x7FFF_FFFF
  }

  lemma HasTheBit(value: bv32)
    ensures A.HasAll(value, A.RC_VBR) <==> A.Overlaps(value, 0x4)
    ensures A.HasAll(value, 0x1) <==> A.Overlaps(value, 0x1)
    ensures A.HasAll(value, 0x100) <==> A.Overlaps(value, 0x100)
  {
  }

  lemma ProfileEncodesVbrIff(d: A.Driver, p: A.Profile, e: A.Entrypoint)
    requires p != A.ProfileNone
    ensures ProfileEncodesVbr(d, p, e) <==> RendersVbr(d, p, e)
  {
    assert [p, A.ProfileNone][1..] == [A.ProfileNone];
    assert A.Named([p, A.ProfileNone]) == [p];
    SupportsFormatsIff(d, [p, A.ProfileNone], e, 0x1);
    HasTheBit(d.attribute(p, e, A.RateControl).value);
    hide A.HasAll;
    hide A.Overlaps;
    hide A.SupportsFormats;
    assert VBR[0] == A.Attrib(A.RateControl, A.RC_VBR);
  }

  lemma EncodesVbrVaapiIff(d: A.Driver, c: Encoder)
    ensures EncodesVbrVaapi(c, d) <==> RendersEncoderVbr(d, c)
  {
    forall p
      ensures p in A.Named(EncProfiles(c)) <==> EncodedAs(c, p)
    {
      EncodedAsIff(c, p);
    }
    forall p, e | p != A.ProfileNone
      ensures ProfileEncodesVbr(d, p, e) <==> RendersVbr(d, p, e)
    {
      ProfileEncodesVbrIff(d, p, e);
    }
    assert forall p :: EncodedAs(c, p) ==> p != A.ProfileNone;
    assert forall e :: e in ENCODING <==> Encoding(e) by {
      assert ENCODING[0] == A.EncSlice && ENCODING[1] == A.EncSliceLp;
    }
    hide A.Named;
    hide ProfileEncodesVbr;
    hide RendersVbr;
    hide EncodedAs;
  }

  /** The variable bitrate label: some device has the plain label's abilities, and at the same
      profile and entrypoint the mode, or in its menu. */
  lemma DetectEncVbrIff(b: Build, m: Machine, c: Encoder)
    ensures DetectEncVbr(b, m, c)
            <==> || (b.vaapi && exists i :: 0 <= i < |m.render| && m.render[i].Some? && RendersEncoderVbr(m.render[i].value, c))
                 || (b.v4l2 && (c == EncH264 || c == EncVp8)
                     && exists i :: 0 <= i < |m.video| && m.video[i].Some?
                          && Makes(m.video[i].value, c) && MenuReachesVbr(m.video[i].value))
  {
    forall d ensures EncodesVbrVaapi(c, d) <==> RendersEncoderVbr(d, c) { EncodesVbrVaapiIff(d, c); }
    AnyDeviceIff(m.render, d => EncodesVbrVaapi(c, d));
    if c == EncH264 || c == EncVp8 {
      forall d
        ensures EncodesVbrV4l2(c, d) <==> Makes(d, c) && MenuReachesVbr(d)
      {
        EncodesV4l2Iff(d, c);
        assert SupportsVbr(d) <==> MenuReachesVbr(d);
        hide EncodesV4l2;
        hide Makes;
      }
      AnyDeviceIff(m.video, d => EncodesVbrV4l2(c, d));
    }
    hide RendersEncoderVbr;
    hide Makes;
    hide EncodesVbrVaapi;
    hide EncodesVbrV4l2;
  }

  // ---------- the 4k labels of video devices ----------

  /** The frame sizes of the format reach 4k, as far as the query can tell. */
  predicate Reaches4k(d: V.Driver, f: Fourcc)
  {
    var size := Largest(d.frameSizes(f));
    3840 <= size.width < TWO_31 && 2160 <= size.height < TWO_31
  }

  predicate Takes4k(d: V.Driver, c: Decoder)
  {
    && Streams(d)
    && exists f :: f in d.formats(OutputQueue) && Reaches4k(d, f) &&
         ((StreamOf(c, f) && BitDepth(c) == 8) || (FramesOf(c, f) && TakesFrames(d, f, BitDepth(c))))
  }

  predicate Makes4k(d: V.Driver, c: Encoder)
  {
    && Makes(d, c)
    && match c
       case EncH264 => Reaches4k(d, H264)
       case EncVp8 => Reaches4k(d, Vp8)
       case EncVp9 => Reaches4k(d, Vp9)
       case EncAv1 => false
  }

  /** Without VAAPI the 4k labels are those of video devices. */
  lemma Detect4kIff(b: Build, m: Machine, c: Decoder, e: Encoder)
    requires !b.vaapi
    ensures DetectDec4k(b, m, c)
            <==> b.v4l2 && exists i :: 0 <= i < |m.video| && m.video[i].Some? && Takes4k(m.video[i].value, c)
    ensures DetectEnc4k(b, m, e)
            <==> b.v4l2 && exists i :: 0 <= i < |m.video| && m.video[i].Some? && Makes4k(m.video[i].value, e)
  {
    forall d ensures Decodes4kV4l2(c, d) <==> Takes4k(d, c) { Decodes4kIff(d, c); }
    AnyDeviceIff(m.video, d => Decodes4kV4l2(c, d));
    if !e.EncAv1? {
      forall d ensures Encodes4kV4l2(e, d) <==> Makes4k(d, e) { Encodes4kIff(d, e); }
      AnyDeviceIff(m.video, d => Encodes4kV4l2(e, d));
    }
    assert e.EncAv1? ==> forall d :: !Makes4k(d, e);
    hide Takes4k;
    hide Makes4k;
    hide Decodes4kV4l2;
    hide Encodes4kV4l2;
  }

  lemma Reaches4kIff(d: V.Driver, f: Fourcc)
    ensures Reaches4k(d, f) <==> var size := Largest(d.frameSizes(f)); IsUsable(size) && Covers(size, UHD)
  {
    hide Largest;
  }

  lemma Decodes4kIff(d: V.Driver, c: Decoder)
    ensures Decodes4kV4l2(c, d) <==> Takes4k(d, c)
  {
    SupportsIff(d, OutputQueue, c);
    AcceleratorIff(d);
    Reaches4kIff(d, Stream(c));
    Reaches4kIff(d, Parsed(c));
    hide IsAccelerator;
    hide Streams;
    hide Supports;
    hide TakesFrames;
    hide StreamOf;
    hide FramesOf;
    hide Reaches4k;
    hide Largest;
    hide IsUsable;
    hide Covers;
  }

  lemma Encodes4kIff(d: V.Driver, c: Encoder)
    requires !c.EncAv1?
    ensures Encodes4kV4l2(c, d) <==> Makes4k(d, c)
  {
    EncodesV4l2Iff(d, c);
    Reaches4kIff(d, EncStream(c));
    hide IsAccelerator;
    hide Streams;
    hide Supports;
    hide Makes;
    hide Reaches4k;
    hide Largest;
    hide IsUsable;
    hide Covers;
  }

  // ---------- the large labels of render devices ----------

  /** The last width (height) in the list is this one. */
  predicate EndsWithWidth(attribs: seq<A.SurfaceAttrib>, width: int32)
  {
    exists i :: 0 <= i < |attribs| && attribs[i] == A.MaxWidth(width) &&
      forall k :: i < k < |attribs| ==> !attribs[k].MaxWidth?
  }

  predicate EndsWithHeight(attribs: seq<A.SurfaceAttrib>, height: int32)
  {
    exists i :: 0 <= i < |attribs| && attribs[i] == A.MaxHeight(height) &&
      forall k :: i < k < |attribs| ==> !attribs[k].MaxHeight?
  }

  lemma {:induction false} EndsWithIff(attribs: seq<A.SurfaceAttrib>, value: int32)
    requires value != 0
    ensures A.LastWidth(attribs) == value <==> EndsWithWidth(attribs, value)
    ensures A.LastHeight(attribs) == value <==> EndsWithHeight(attribs, value)
  {
    if attribs == [] {
    } else {
      var n := |attribs| - 1;
      EndsWithIff(attribs[..n], value);
      assert attribs == attribs[..n] + [attribs[n]];
      EndsWithSnoc(attribs[..n], attribs[n], value);
      hide EndsWithWidth;
      hide EndsWithHeight;
    }
  }

  lemma EndsWithSnoc(attribs: seq<A.SurfaceAttrib>, last: A.SurfaceAttrib, value: int32)
    ensures EndsWithWidth(attribs + [last], value)
            <==> if last.MaxWidth? then last.value == value else EndsWithWidth(attribs, value)
    ensures EndsWithHeight(attribs + [last], value)
            <==> if last.MaxHeight? then last.value == value else EndsWithHeight(attribs, value)
  {
    var all := attribs + [last];
    assert all[|attribs|] == last && forall k :: 0 <= k < |attribs| ==> all[k] == attribs[k];
    if i :| 0 <= i < |attribs| && attribs[i] == A.MaxWidth(value) && forall k :: i < k < |attribs| ==> !attribs[k].MaxWidth? {
      assert all[i] == attribs[i];
    }
    if i :| 0 <= i < |attribs| && attribs[i] == A.MaxHeight(value) && forall k :: i < k < |attribs| ==> !attribs[k].MaxHeight? {
      assert all[i] == attribs[i];
    }
  }

  /** The render device lists the entrypoint for the profile, within its own bounds, has surfaces
      with the bit, and the last size that it gives for them is this one. */
  predicate RendersUpTo(d: A.Driver, p: A.Profile, e: A.Entrypoint, bit: bv32, width: int32, height: int32)
  {
    && d.entrypointCount(p).Some? && d.entrypointCount(p).value <= d.maxEntrypoints
    && (exists i :: 0 <= i < d.entrypointCount(p).value && d.entrypointAt(p, i) == e)
    && d.answersAttributes(p, e) && d.attribute(p, e, A.RtFormat).kind == A.RtFormat
    && A.Overlaps(d.attribute(p, e, A.RtFormat).value, bit)
    && d.createsConfig(p, e) && d.surfaceAttribCount(p, e).Some? && d.surfaceAttribCount(p, e).value > 0
    && d.surfaceAttribs(p, e).Some?
    && EndsWithWidth(d.surfaceAttribs(p, e).value, width) && EndsWithHeight(d.surfaceAttribs(p, e).value, height)
  }

  lemma SurfaceIff(d: A.Driver, p: A.Profile, e: A.Entrypoint, width: int32, height: int32)
    requires width > 0 && height > 0
    ensures A.LargestSurface(d, p, e) == Some(Size(width, height))
            <==> && d.createsConfig(p, e) && d.surfaceAttribCount(p, e).Some? && d.surfaceAttribCount(p, e).value > 0
                 && d.surfaceAttribs(p, e).Some?
                 && EndsWithWidth(d.surfaceAttribs(p, e).value, width) && EndsWithHeight(d.surfaceAttribs(p, e).value, height)
  {
    hide EndsWithWidth;
    hide EndsWithHeight;
    hide A.LastWidth;
    hide A.LastHeight;
    var count := d.surfaceAttribCount(p, e);
    assert count in {None, Some(0)} <==> count.None? || count.value == 0;
    if d.surfaceAttribs(p, e).Some? {
      var attribs := d.surfaceAttribs(p, e).value;
      EndsWithIff(attribs, width);
      EndsWithIff(attribs, height);
      assert A.LastWidth(attribs) == width && A.LastHeight(attribs) == height
             <==> EndsWithWidth(attribs, width) && EndsWithHeight(attribs, height);
    }
  }

  lemma FormatIff(d: A.Driver, p: A.Profile, e: A.Entrypoint, bit: bv32)
    requires bit == 0x1 || bit == 0x100
    ensures A.SupportsAttribs(d, p, e, [A.Attrib(A.RtFormat, bit)])
            <==> d.answersAttributes(p, e) && d.attribute(p, e, A.RtFormat).kind == A.RtFormat
                 && A.Overlaps(d.attribute(p, e, A.RtFormat).value, bit)
  {
    HasTheBit(d.attribute(p, e, A.RtFormat).value);
    hide A.HasAll;
    hide A.Overlaps;
    var required := [A.Attrib(A.RtFormat, bit)];
    assert required[0] == A.Attrib(A.RtFormat, bit);
  }

  lemma CandidateIff(d: A.Driver, p: A.Profile, e: A.Entrypoint, bit: bv32, width: int32, height: int32)
    requires width > 0 && height > 0 && (bit == 0x1 || bit == 0x100)
    ensures A.Candidate(d, p, e, bit) == Some(Size(width, height)) <==> RendersUpTo(d, p, e, bit, width, height)
  {
    FormatIff(d, p, e, bit);
    SurfaceIff(d, p, e, width, height);
    hide A.Overlaps;
    hide A.SupportsAttribs;
    hide A.LargestSurface;
    hide EndsWithWidth;
    hide EndsWithHeight;
  }

  ghost predicate RendersCodecAt(d: A.Driver, c: Decoder, width: int32, height: int32)
  {
    && RendersCodec(d, c)
    && exists w: int32, h: int32 :: w >= width && h >= height && RendersUpTo(d, SomeProfile(c), A.Vld, SurfaceBit(c), w, h)
  }

  lemma ReachesAloneIff(d: A.Driver, c: Decoder, bound: Size)
    requires c != DecH264 && 0 < bound.width < TWO_31 && 0 < bound.height < TWO_31
    ensures ReachesAlone(c, bound, d)
            <==> exists w: int32, h: int32 ::
                   w >= bound.width && h >= bound.height && RendersUpTo(d, SomeProfile(c), A.Vld, SurfaceBit(c), w, h)
  {
    var p, bit := SomeProfile(c), SurfaceBit(c);
    assert DecProfiles(c)[0] == p && RtFormat(c) == bit;
    hide DecProfiles;
    hide SomeProfile;
    hide RtFormat;
    forall w: int32, h: int32 | w > 0 && h > 0
      ensures A.Candidate(d, p, A.Vld, bit) == Some(Size(w, h)) <==> RendersUpTo(d, p, A.Vld, bit, w, h)
    {
      CandidateIff(d, p, A.Vld, bit, w, h);
    }
    hide RendersUpTo;
    var size := A.Candidate(d, p, A.Vld, bit);
    if size.Some? {
      assert size.value.width < TWO_31 && size.value.height < TWO_31;
      hide A.Candidate;
      var w: int32, h: int32 := size.value.width, size.value.height;
      assert size == Some(Size(w, h));
      assert RendersUpTo(d, p, A.Vld, bit, w, h);
    }
    hide A.Candidate;
  }

  /** In builds with VAAPI the 4k and 8k labels of the codecs with one profile, in the answers of the
      render devices. */
  lemma DetectLargeIff(b: Build, m: Machine, c: Decoder)
    requires b.vaapi && c != DecH264
    ensures DetectDec4k(b, m, c)
            <==> exists i :: 0 <= i < |m.render| && m.render[i].Some? && RendersCodecAt(m.render[i].value, c, 3840, 2160)
    ensures DetectDec8k(b, m, c)
            <==> c != DecVp8 && c != DecVp9Profile2
                 && exists i :: 0 <= i < |m.render| && m.render[i].Some? && RendersCodecAt(m.render[i].value, c, 7680, 4320)
  {
    LargeDevices(m.render, c, UHD);
    LargeDevices(m.render, c, UHD_8K);
    hide RendersCodecAt;
    hide DecodesVaapiAt;
    hide AnyDevice;
  }

  lemma LargeDevices(files: seq<Option<A.Driver>>, c: Decoder, bound: Size)
    requires c != DecH264 && 0 < bound.width < TWO_31 && 0 < bound.height < TWO_31
    ensures AnyDevice(files, d => DecodesVaapiAt(c, bound, d))
            <==> exists i :: 0 <= i < |files| && files[i].Some? && RendersCodecAt(files[i].value, c, bound.width, bound.height)
  {
    forall d
      ensures DecodesVaapiAt(c, bound, d) <==> RendersCodecAt(d, c, bound.width, bound.height)
    {
      LargeDeviceIff(d, c, bound);
    }
    hide DecodesVaapiAt;
    hide RendersCodecAt;
    AnyDeviceIff(files, d => DecodesVaapiAt(c, bound, d));
  }

  lemma LargeDeviceIff(d: A.Driver, c: Decoder, bound: Size)
    requires c != DecH264 && 0 < bound.width < TWO_31 && 0 < bound.height < TWO_31
    ensures DecodesVaapiAt(c, bound, d) <==> RendersCodecAt(d, c, bound.width, bound.height)
  {
    OneCandidate(c, bound, d);
    DecodesVaapiIff(d, c);
    ReachesAloneIff(d, c, bound);
    hide DecodesVaapiAt;
    hide DecodesVaapi;
    hide ReachesAlone;
    hide RendersCodec;
    hide RendersUpTo;
  }

  // ---------- machines that offer one thing ----------

  /** One profile with one entrypoint, these surface formats and rate controls, up to this size. */
  datatype Offer = Offer(p: A.Profile, e: A.Entrypoint, format: bv32, control: bv32, width: int32, height: int32)

  function RenderDriver(o: Offer): A.Driver
  {
    A.Driver(true, true, 1, Some(1), (i: int) => o.p,
             1, (p: A.Profile) => if p == o.p then Some(1) else None, (p: A.Profile, i: int) => o.e,
             (p: A.Profile, e: A.Entrypoint) => p == o.p && e == o.e,
             (p: A.Profile, e: A.Entrypoint, kind: A.AttribType) =>
               A.Attrib(kind, if kind.RtFormat? then o.format else o.control),
             (p, e) => true, (p, e) => Some(2), (p, e) => Some([A.MaxWidth(o.width), A.MaxHeight(o.height)]))
  }

  function RenderMachine(o: Offer): Machine
  {
    Machine([Some(RenderDriver(o))], [])
  }

  lemma OfferRenders(o: Offer, p: A.Profile, e: A.Entrypoint, bit: bv32)
    ensures Renders(RenderDriver(o), p, e, bit) <==> p == o.p && e == o.e && A.Overlaps(o.format, bit)
  {
    hide A.Overlaps;
    assert RenderDriver(o).profileAt(0) == o.p;
  }

  lemma OfferSurface(o: Offer, p: A.Profile, e: A.Entrypoint)
    requires o.width > 0 && o.height > 0
    ensures A.LargestSurface(RenderDriver(o), p, e) == Some(Size(o.width, o.height))
  {
    var attribs := [A.MaxWidth(o.width), A.MaxHeight(o.height)];
    assert attribs[..1] == [attribs[0]];
    A.LastOnesCount(attribs, 1);
  }

  lemma OfferEntrypoint(o: Offer, p: A.Profile, e: A.Entrypoint)
    ensures A.OffersEntrypoint(RenderDriver(o), p, e) <==> p == o.p && e == o.e
  {
    assert RenderDriver(o).entrypointAt(p, 0) == o.e;
  }

  lemma OfferAttribs(o: Offer, p: A.Profile, e: A.Entrypoint, bit: bv32)
    ensures A.SupportsAttribs(RenderDriver(o), p, e, [A.Attrib(A.RtFormat, bit)])
            <==> p == o.p && e == o.e && A.HasAll(o.format, bit)
  {
    hide A.HasAll;
    var required := [A.Attrib(A.RtFormat, bit)];
    assert required[0] == A.Attrib(A.RtFormat, bit);
  }

  lemma OfferCandidate(o: Offer, p: A.Profile, e: A.Entrypoint, bit: bv32)
    requires o.width > 0 && o.height > 0
    ensures A.Candidate(RenderDriver(o), p, e, bit)
            == if p == o.p && e == o.e && A.HasAll(o.format, bit) then Some(Size(o.width, o.height)) else None
  {
    OfferSurface(o, p, e);
    OfferEntrypoint(o, p, e);
    OfferAttribs(o, p, e, bit);
    hide RenderDriver;
    hide A.LargestSurface;
    hide A.OffersEntrypoint;
    hide A.SupportsAttribs;
    hide A.HasAll;
  }

  lemma OfferCandidates(o: Offer, named: seq<A.Profile>, e: A.Entrypoint, bit: bv32)
    requires o.width > 0 && o.height > 0
    ensures var sizes := A.Candidates(RenderDriver(o), named, e, bit);
            && (sizes != [] <==> o.p in named && e == o.e && A.HasAll(o.format, bit))
            && (sizes != [] ==> Best(sizes) == Size(o.width, o.height))
  {
    var d, size := RenderDriver(o), Size(o.width, o.height);
    var sizes := A.Candidates(d, named, e, bit);
    forall p
      ensures A.Candidate(d, p, e, bit) == if p == o.p && e == o.e && A.HasAll(o.format, bit) then Some(size) else None
    {
      OfferCandidate(o, p, e, bit);
    }
    hide A.Candidate;
    hide A.Candidates;
    hide A.HasAll;
    A.CandidatesIff(d, named, e, bit, size);
    BestIsMaximal(sizes);
    hide Best;
    if sizes != [] {
      A.CandidatesIff(d, named, e, bit, Best(sizes));
    }
  }

  /** What a test of the only offer against a bound finds. */
  lemma OfferMeets(o: Offer, profiles: seq<A.Profile>, e: A.Entrypoint, bit: bv32, bound: Size)
    requires o.width > 0 && o.height > 0 && (A.HasAll(o.format, bit) <==> A.Overlaps(o.format, bit))
    ensures QuerySupportFor(RenderDriver(o), profiles, e, bit, bound)
            <==> o.p in A.Named(profiles) && e == o.e && A.Overlaps(o.format, bit) && Covers(Size(o.width, o.height), bound)
  {
    var d, named := RenderDriver(o), A.Named(profiles);
    OfferCandidates(o, named, e, bit);
    SupportsFormatsIff(d, profiles, e, bit);
    forall p
      ensures Renders(d, p, e, bit) <==> p == o.p && e == o.e && A.Overlaps(o.format, bit)
    {
      OfferRenders(o, p, e, bit);
    }
    assert A.Usable(d);
    hide A.Candidates;
    hide A.SupportsFormats;
    hide A.Overlaps;
    hide A.HasAll;
    hide A.Named;
    hide Best;
    hide Renders;
    hide Covers;
  }

  /** A machine whose only device makes one offer gets exactly the decoding labels of the codec
      that the offer is for, and of the sizes that it reaches, in a build with VAAPI; and none in
      another. */
  lemma OneOfferDecodes(b: Build, o: Offer, c: Decoder)
    requires o.width > 0 && o.height > 0
    ensures var m := RenderMachine(o);
            var decodes := b.vaapi && o.e == A.Vld && DecodedAs(c, o.p) && A.Overlaps(o.format, SurfaceBit(c));
            && (DetectDec(b, m, c) <==> decodes)
            && (DetectDec4k(b, m, c) <==> decodes && o.width >= 3840 && o.height >= 2160)
            && (DetectDec8k(b, m, c)
                <==> decodes && o.width >= 7680 && o.height >= 4320 && c != DecVp8 && c != DecVp9Profile2)
  {
    var d := RenderDriver(o);
    OfferDecodes(o, c);
    OfferDecodesAt(o, c, UHD);
    OfferDecodesAt(o, c, UHD_8K);
    OnlyDevice(d, d => DecodesVaapi(c, d));
    OnlyDevice(d, d => DecodesVaapiAt(c, UHD, d));
    OnlyDevice(d, d => DecodesVaapiAt(c, UHD_8K, d));
    hide AnyDevice;
    NoDevice(d => DecodesV4l2(c, d));
    NoDevice(d => Decodes4kV4l2(c, d));
    hide RenderDriver;
    hide DecodesVaapi;
    hide DecodesVaapiAt;
    hide A.Overlaps;
    hide DecodedAs;
    hide SurfaceBit;
  }

  lemma OnlyDevice<D(!new)>(d: D, func: D -> bool)
    ensures AnyDevice([Some(d)], func) <==> func(d)
  {
    AnyDeviceIff([Some(d)], func);
    assert [Some(d)][0] == Some(d);
  }

  lemma NoDevice<D(!new)>(func: D -> bool)
    ensures !AnyDevice([], func)
  {
  }

  lemma OfferDecodesAt(o: Offer, c: Decoder, bound: Size)
    requires o.width > 0 && o.height > 0
    ensures DecodesVaapiAt(c, bound, RenderDriver(o))
            <==> o.e == A.Vld && DecodedAs(c, o.p) && A.Overlaps(o.format, SurfaceBit(c))
                 && o.width >= bound.width && o.height >= bound.height
  {
    DecodedAsIff(c, o.p);
    HasTheBit(o.format);
    assert A.HasAll(o.format, SurfaceBit(c)) <==> A.Overlaps(o.format, SurfaceBit(c));
    hide SurfaceBit;
    hide RtFormat;
    hide DecProfiles;
    OfferMeets(o, DecProfiles(c), A.Vld, SurfaceBit(c), bound);
    hide RenderDriver;
    hide QuerySupportFor;
    hide A.Overlaps;
    hide A.HasAll;
    hide A.Named;
    hide DecodedAs;
  }

  lemma OfferDecodes(o: Offer, c: Decoder)
    ensures DecodesVaapi(c, RenderDriver(o)) <==> o.e == A.Vld && DecodedAs(c, o.p) && A.Overlaps(o.format, SurfaceBit(c))
  {
    var d := RenderDriver(o);
    DecodesVaapiIff(d, c);
    forall p
      ensures Renders(d, p, A.Vld, SurfaceBit(c)) <==> p == o.p && A.Vld == o.e && A.Overlaps(o.format, SurfaceBit(c))
    {
      OfferRenders(o, p, A.Vld, SurfaceBit(c));
    }
    hide DecodesVaapi;
    hide Renders;
    hide A.Overlaps;
    hide DecodedAs;
  }

  /** The same of its encoding labels. */
  lemma OneOfferEncodes(b: Build, o: Offer, c: Encoder)
    requires o.width > 0 && o.height > 0
    ensures var m := RenderMachine(o);
            var encodes := b.vaapi && Encoding(o.e) && EncodedAs(c, o.p) && A.Overlaps(o.format, 0x1);
            && (DetectEnc(b, m, c) <==> encodes)
            && (DetectEnc4k(b, m, c) <==> encodes && o.width >= 3840 && o.height >= 2160)
            && (DetectEncVbr(b, m, c) <==> encodes && A.Overlaps(o.control, 0x4))
  {
    var d := RenderDriver(o);
    OfferEncodes(o, c);
    OfferEncodesVbr(o, c);
    OfferEncodesAt(o, c, UHD);
    OnlyDevice(d, d => EncodesVaapi(c, d));
    OnlyDevice(d, d => EncodesVaapiAt(c, UHD, d));
    OnlyDevice(d, d => EncodesVbrVaapi(c, d));
    hide AnyDevice;
    if !c.EncAv1? {
      NoDevice(d => EncodesV4l2(c, d));
      NoDevice(d => Encodes4kV4l2(c, d));
      NoDevice(d => EncodesVbrV4l2(c, d));
    }
    hide RenderDriver;
    hide EncodesVaapi;
    hide EncodesVaapiAt;
    hide EncodesVbrVaapi;
    hide A.Overlaps;
    hide EncodedAs;
  }

  lemma OfferEncodes(o: Offer, c: Encoder)
    ensures EncodesVaapi(c, RenderDriver(o)) <==> Encoding(o.e) && EncodedAs(c, o.p) && A.Overlaps(o.format, 0x1)
  {
    var d := RenderDriver(o);
    EncodesVaapiIff(d, c);
    forall p, e
      ensures Renders(d, p, e, 0x1) <==> p == o.p && e == o.e && A.Overlaps(o.format, 0x1)
    {
      OfferRenders(o, p, e, 0x1);
    }
    hide RenderDriver;
    hide EncodesVaapi;
    hide Renders;
    hide A.Overlaps;
    hide EncodedAs;
    hide Encoding;
  }

  lemma OfferRendersVbr(o: Offer, p: A.Profile, e: A.Entrypoint)
    ensures RendersVbr(RenderDriver(o), p, e)
            <==> p == o.p && e == o.e && A.Overlaps(o.format, 0x1) && A.Overlaps(o.control, 0x4)
  {
    hide A.Overlaps;
    OfferRenders(o, p, e, 0x1);
    hide Renders;
  }

  lemma OfferEncodesVbr(o: Offer, c: Encoder)
    ensures EncodesVbrVaapi(c, RenderDriver(o))
            <==> Encoding(o.e) && EncodedAs(c, o.p) && A.Overlaps(o.format, 0x1) && A.Overlaps(o.control, 0x4)
  {
    var d := RenderDriver(o);
    EncodesVbrVaapiIff(d, c);
    forall p, e
      ensures RendersVbr(d, p, e) <==> p == o.p && e == o.e && A.Overlaps(o.format, 0x1) && A.Overlaps(o.control, 0x4)
    {
      OfferRendersVbr(o, p, e);
    }
    hide RenderDriver;
    hide EncodesVbrVaapi;
    hide RendersVbr;
    hide A.Overlaps;
    hide EncodedAs;
    hide Encoding;
  }

  lemma OfferEncodesAt(o: Offer, c: Encoder, bound: Size)
    requires o.width > 0 && o.height > 0
    ensures EncodesVaapiAt(c, bound, RenderDriver(o))
            <==> Encoding(o.e) && EncodedAs(c, o.p) && A.Overlaps(o.format, 0x1)
                 && o.width >= bound.width && o.height >= bound.height
  {
    EncodedAsIff(c, o.p);
    HasTheBit(o.format);
    hide EncProfiles;
    OfferMeets(o, EncProfiles(c), A.EncSlice, 0x1, bound);
    OfferMeets(o, EncProfiles(c), A.EncSliceLp, 0x1, bound);
    hide RenderDriver;
    hide QuerySupportFor;
    hide A.Overlaps;
    hide A.HasAll;
    hide A.Named;
    hide EncodedAs;
  }

  /** One format on one queue, with this depth where a depth is set, one frame size, and a bitrate
      menu with or without the mode. */
  datatype VideoOffer = VideoOffer(
    queue: Queue, f: Fourcc, depth: uint32, width: uint32, height: uint32, menu: (int32, int32), hasMode: bool)

  function VideoDriver(o: VideoOffer): V.Driver
  {
    V.Driver(Some(0x0400_4000), (q: Queue) => if q == o.queue then [o.f] else [], (f: Fourcc) => [Discrete(o.width, o.height)],
             (f: Fourcc) => Some(f), (f: Fourcc, depth: uint32) => depth == o.depth, (f: Fourcc, depth: uint32) => None,
             Some(o.menu), (index: uint32) => o.hasMode && index == 0)
  }

  function VideoMachine(o: VideoOffer): Machine
  {
    Machine([], [Some(VideoDriver(o))])
  }

  /** The format carries the codec at the depth that is set. */
  predicate Carries(c: Decoder, f: Fourcc, depth: uint32)
  {
    match c
    case DecH264 => f == H264 || f == H264Slice
    case DecVp8 => f == Vp8 || f == Vp8Frame
    case DecVp9 => f == Vp9 || (f == Vp9Frame && depth == 8)
    case DecVp9Profile2 => f == Vp9Frame && depth == 10
    case DecAv1 => f == Av1 || (f == Av1Frame && depth == 8)
    case DecAv1TenBit => f == Av1Frame && depth == 10
    case DecHevc => f == Hevc || (f == HevcSlice && depth == 8)
    case DecHevcTenBit => f == HevcSlice && depth == 10
  }

  predicate Is4kSize(o: VideoOffer)
  {
    3840 <= o.width < TWO_31 && 2160 <= o.height < TWO_31
  }

  lemma OfferStreams(o: VideoOffer)
    ensures Streams(VideoDriver(o))
  {
  }

  lemma OfferTakes(o: VideoOffer, c: Decoder)
    ensures Takes(VideoDriver(o), c) <==> o.queue == OutputQueue && Carries(c, o.f, o.depth)
    ensures Takes4k(VideoDriver(o), c) <==> o.queue == OutputQueue && Carries(c, o.f, o.depth) && Is4kSize(o)
  {
    var d := VideoDriver(o);
    OfferStreams(o);
    OfferReaches(o, o.f);
    hide Streams;
    hide Reaches4k;
    assert forall f :: f in d.formats(OutputQueue) <==> o.queue == OutputQueue && f == o.f;
    assert (StreamOf(c, o.f) && BitDepth(c) == 8) || (FramesOf(c, o.f) && TakesFrames(d, o.f, BitDepth(c)))
           <==> Carries(c, o.f, o.depth);
    hide TakesFrames;
    hide StreamOf;
    hide FramesOf;
    hide Carries;
  }

  lemma OfferReaches(o: VideoOffer, f: Fourcc)
    ensures Reaches4k(VideoDriver(o), f) <==> Is4kSize(o)
  {
    var sizes := VideoDriver(o).frameSizes(f);
    assert sizes == [Discrete(o.width, o.height)];
    DecidingIsLargest(sizes, 0);
    hide Largest;
  }

  lemma OfferMakes(o: VideoOffer, c: Encoder)
    ensures Makes(VideoDriver(o), c)
            <==> o.queue == CaptureQueue && match c case EncH264 => o.f == H264 case EncVp8 => o.f == Vp8
                                                    case EncVp9 => o.f == Vp9 case EncAv1 => false
    ensures Makes4k(VideoDriver(o), c) <==> Makes(VideoDriver(o), c) && Is4kSize(o)
  {
    OfferStreams(o);
    OfferReaches(o, H264);
    OfferReaches(o, Vp8);
    OfferReaches(o, Vp9);
    hide Streams;
    hide Reaches4k;
  }

  /** A machine whose only device is a video device with one format gets exactly the labels of the
      codec that the format carries, in builds that look at video devices: with VAAPI those do not
      look for VP9 profile 2 there, nor for 4k. */
  lemma OneVideoOfferDecodes(b: Build, o: VideoOffer, c: Decoder)
    ensures var m := VideoMachine(o);
            var takes := b.v4l2 && o.queue == OutputQueue && Carries(c, o.f, o.depth);
            && (DetectDec(b, m, c) <==> takes && !(b.vaapi && c == DecVp9Profile2))
            && (DetectDec4k(b, m, c) <==> takes && !b.vaapi && Is4kSize(o))
            && !DetectDec8k(b, m, c)
  {
    var m, d := VideoMachine(o), VideoDriver(o);
    OfferTakes(o, c);
    DecodesV4l2Iff(d, c);
    Decodes4kIff(d, c);
    OnlyDevice(d, d => DecodesV4l2(c, d));
    OnlyDevice(d, d => Decodes4kV4l2(c, d));
    hide AnyDevice;
    NoDevice(d => DecodesVaapi(c, d));
    NoDevice(d => DecodesVaapiAt(c, UHD, d));
    NoDevice(d => DecodesVaapiAt(c, UHD_8K, d));
    hide VideoDriver;
    hide DecodesV4l2;
    hide Decodes4kV4l2;
    hide Takes;
    hide Takes4k;
    hide Carries;
    hide Is4kSize;
  }

  /** The same of its encoding labels: VP9 has one for 4k alone, and the variable bitrate label goes
      by the menu. */
  lemma OneVideoOfferEncodes(b: Build, o: VideoOffer, c: Encoder)
    ensures var m := VideoMachine(o);
            var makes := b.v4l2 && o.queue == CaptureQueue;
            && (DetectEnc(b, m, c) <==> makes && ((c == EncH264 && o.f == H264) || (c == EncVp8 && o.f == Vp8)))
            && (DetectEnc4k(b, m, c)
                <==> makes && !b.vaapi && Is4kSize(o)
                     && ((c == EncH264 && o.f == H264) || (c == EncVp8 && o.f == Vp8) || (c == EncVp9 && o.f == Vp9)))
            && (DetectEncVbr(b, m, c)
                <==> DetectEnc(b, m, c) && o.hasMode && ((o.menu.0 <= 0 && 0 <= o.menu.1) || o.menu.1 == 0x7FFF_FFFF))
  {
    var d := VideoDriver(o);
    OfferMakes(o, c);
    DetectEncIff(b, VideoMachine(o), c);
    DetectEncVbrIff(b, VideoMachine(o), c);
    assert VideoMachine(o).video[0] == Some(d);
    if !b.vaapi {
      Detect4kIff(b, VideoMachine(o), DecH264, c);
    } else {
      NoDevice(d => EncodesVaapiAt(c, UHD, d));
    }
    hide Makes;
    hide Makes4k;
    hide DetectEnc;
    hide DetectEncVbr;
    hide Is4kSize;
    hide AnyDevice;
  }

  // ---------- no label says what another says ----------

  /** A profile that tells the codec, with its depth, from every other. */
  function SomeProfile(c: Decoder): A.Profile
  {
    match c
    case DecH264 => A.H264Main
    case DecVp8 => A.Vp8Version0_3
    case DecVp9 => A.Vp9Profile0
    case DecVp9Profile2 => A.Vp9Profile2
    case DecAv1 => A.Av1Profile0
    case DecAv1TenBit => A.Av1Profile0
    case DecHevc => A.HevcMain
    case DecHevcTenBit => A.HevcMain10
  }

  lemma ProfileTells(c: Decoder, c2: Decoder)
    ensures DecodedAs(c2, SomeProfile(c)) && A.Overlaps(SurfaceBit(c), SurfaceBit(c2)) <==> c == c2
  {
    BitsDiffer();
    hide A.Overlaps;
  }

  lemma BitsDiffer()
    ensures A.Overlaps(0x1, 0x1) && A.Overlaps(0x100, 0x100) && !A.Overlaps(0x1, 0x100) && !A.Overlaps(0x100, 0x1)
  {
  }

  lemma FramesTell(c: Decoder, c2: Decoder)
    ensures Carries(c2, Parsed(c), BitDepth(c)) <==> c == c2
  {
  }

  /** A machine that tells codec c from every other. */
  function Telling(b: Build, c: Decoder): Machine
  {
    if b.vaapi then RenderMachine(Offer(SomeProfile(c), A.Vld, SurfaceBit(c), 0, 1, 1))
    else VideoMachine(VideoOffer(OutputQueue, Parsed(c), BitDepth(c), 1, 1, (0, 0), false))
  }

  /** In every build, there is a machine for every codec that gets the label of that codec alone.
      So one decoding label implies another on every machine only if it is the same. */
  lemma DecodingLabelsDiffer(b: Build, c: Decoder, c2: Decoder)
    requires b.vaapi || b.v4l2
    ensures DetectDec(b, Telling(b, c), c2) <==> c == c2
    ensures (forall m :: DetectDec(b, m, c) ==> DetectDec(b, m, c2)) <==> c == c2
  {
    ProfileTells(c, c2);
    ProfileTells(c, c);
    FramesTell(c, c2);
    FramesTell(c, c);
    hide DetectDec;
    hide SomeProfile;
    hide SurfaceBit;
    hide DecodedAs;
    hide Carries;
    hide A.Overlaps;
    hide Parsed;
    hide BitDepth;
    hide RenderMachine;
    hide VideoMachine;
    hide Is4kSize;
    if b.vaapi {
      var o := Offer(SomeProfile(c), A.Vld, SurfaceBit(c), 0, 1, 1);
      OneOfferDecodes(b, o, c);
      OneOfferDecodes(b, o, c2);
    } else {
      var o := VideoOffer(OutputQueue, Parsed(c), BitDepth(c), 1, 1, (0, 0), false);
      OneVideoOfferDecodes(b, o, c);
      OneVideoOfferDecodes(b, o, c2);
    }
    assert DetectDec(b, Telling(b, c), c2) <==> c == c2;
    assert DetectDec(b, Telling(b, c), c);
  }

  function EncodingOffer(c: Encoder): Offer
  {
    var p := match c
      case EncH264 => A.H264Main
      case EncVp8 => A.Vp8Version0_3
      case EncVp9 => A.Vp9Profile0
      case EncAv1 => A.Av1Profile0;
    Offer(p, A.EncSlice, 0x1, 0, 1, 1)
  }

  /** The same of the encoding labels in builds with VAAPI. */
  lemma EncodingLabelsDiffer(b: Build, c: Encoder, c2: Encoder)
    requires b.vaapi
    ensures DetectEnc(b, RenderMachine(EncodingOffer(c)), c2) <==> c == c2
    ensures (forall m :: DetectEnc(b, m, c) ==> DetectEnc(b, m, c2)) <==> c == c2
  {
    var o := EncodingOffer(c);
    BitsDiffer();
    assert EncodedAs(c2, o.p) <==> c == c2;
    assert EncodedAs(c, o.p);
    hide A.Overlaps;
    hide DetectEnc;
    hide EncodedAs;
    hide RenderMachine;
    OneOfferEncodes(b, o, c);
    OneOfferEncodes(b, o, c2);
    assert DetectEnc(b, RenderMachine(o), c);
  }
}
