/**
 * The RemoteFX message field parsers: each reads one block body of
 * [MS-RDPRFX] section 2.2.2 from a byte sequence at a cursor and yields
 * the fields and the cursor after them, or None when the body runs past
 * the end of the data. Each layout is also given as the list of fields a
 * writer emits, and every parser reads that list back.
 */
module RfxParse {
  import opened Common
  import opened RfxWire

  // -----------------------------------------------------------------------
  // Pixel formats
  // -----------------------------------------------------------------------

  datatype PixelFormat =
    | B8G8R8A8 | R8G8B8A8 | B8G8R8 | R8G8B8 | B5G6R5_LE | R5G6B5_LE | P4_PLANER | P8
    | OtherFormat(code: int)

  /** Bits per pixel of a format, 0 for a format the codec does not know. */
  function BitsPerPixel(f: PixelFormat): (bpp: u8)
    ensures bpp == 0 <==> f.OtherFormat?
    ensures bpp == 4 || bpp % 8 == 0
  {
    match f
    case B8G8R8A8 | R8G8B8A8 => 32
    case B8G8R8 | R8G8B8 => 24
    case B5G6R5_LE | R5G6B5_LE => 16
    case P4_PLANER => 4
    case P8 => 8
    case OtherFormat(_) => 0
  }

  /** The bit widths of a format's channels, read off its name. */
  function Channels(f: PixelFormat): seq<nat>
  {
    match f
    case B8G8R8A8 | R8G8B8A8 => [8, 8, 8, 8]
    case B8G8R8 | R8G8B8 => [8, 8, 8]
    case B5G6R5_LE | R5G6B5_LE => [5, 6, 5]
    case P4_PLANER => [4]
    case P8 => [8]
    case OtherFormat(_) => []
  }

  function Sum(xs: seq<nat>): nat
  {
    if |xs| == 0 then 0 else xs[0] + Sum(xs[1..])
  }

  /** A pixel's width is the sum of its channel widths. */
  lemma {:induction false} BitsPerPixelIsChannelSum(f: PixelFormat)
    ensures BitsPerPixel(f) == Sum(Channels(f))
  {
    match f
    case B8G8R8A8 | R8G8B8A8 => assert Sum([8, 8, 8, 8]) == 32;
    case B8G8R8 | R8G8B8 => assert Sum([8, 8, 8]) == 24;
    case B5G6R5_LE | R5G6B5_LE => assert Sum([5, 6, 5]) == 16;
    case P4_PLANER => assert Sum([4]) == 4;
    case P8 => assert Sum([8]) == 8;
    case OtherFormat(_) =>
  }

  /** The entropy coder a context uses. */
  datatype RlgrMode = RLGR1 | RLGR3

  // -----------------------------------------------------------------------
  // Fixed-layout bodies
  // -----------------------------------------------------------------------

  datatype Sync = Sync(magic: u32, version: u16)

  function SyncFields(x: Sync): seq<Field>
  {
    [F32(x.magic), F16(x.version)]
  }

  /** The sync body: the magic number, then the version. */
  function ParseSync(s: Bytes, p: nat): (r: Option<Read<Sync>>)
    ensures r.Some? <==> p + 6 <= |s|
    ensures r.Some? ==> r.value.next == p + 6
  {
    if p + 6 > |s| then None
    else Some(Read(Sync(U32At(s, p), U16At(s, p + 4)), p + 6))
  }

  /** The sync parser reads x at p exactly when the fields of x are stored there. */
  lemma {:induction false} SyncAt(s: Bytes, p: nat, x: Sync)
    ensures ParseSync(s, p) == Some(Read(x, p + 6)) <==> FieldsAt(s, p, SyncFields(x))
  {
    var fs := SyncFields(x);
    assert FieldsAt(s, p, fs) <==> p + 4 <= |s| && U32At(s, p) == x.magic && FieldsAt(s, p + 4, fs[1..]);
    assert FieldsAt(s, p + 4, fs[1..]) <==> p + 6 <= |s| && U16At(s, p + 4) == x.version && FieldsAt(s, p + 6, fs[2..]);
    assert fs[2..] == [];
  }

  /** A written sync body, wherever it sits in a buffer, reads back. */
  lemma {:induction false} SyncRoundTrip(s: Bytes, p: nat, x: Sync)
    requires BytesAt(s, p, Emit(SyncFields(x)))
    ensures ParseSync(s, p) == Some(Read(x, p + 6))
  {
    EmitFieldsAt(s, p, SyncFields(x), Emit(SyncFields(x)));
    SyncAt(s, p, x);
  }

  /** The codec-versions body: a count and one TS_RFX_CODEC_VERSIONT. */
  datatype CodecVersions = CodecVersions(numCodecs: u8, codecId: u8, version: u16)

  function CodecVersionsFields(x: CodecVersions): seq<Field>
  {
    [F8(x.numCodecs), F8(x.codecId), F16(x.version)]
  }

  /**
   * The codec-versions parser as written: the two-byte version field is
   * read with a one-byte read, so only its low byte is kept and the
   * parser consumes 3 bytes.
   */
  function ParseCodecVersionsAsWritten(s: Bytes, p: nat): (r: Option<Read<CodecVersions>>)
    ensures r.Some? <==> p + 3 <= |s|
    ensures r.Some? ==> r.value.next == p + 3 && r.value.value.version < 0x100
  {
    if p + 3 > |s| then None
    else Some(Read(CodecVersions(s[p], s[p + 1], s[p + 2]), p + 3))
  }

  /** The codec-versions parser with the version read as the two-byte field it is. */
  function ParseCodecVersions(s: Bytes, p: nat): (r: Option<Read<CodecVersions>>)
    ensures r.Some? <==> p + 4 <= |s|
    ensures r.Some? ==> r.value.next == p + 4
  {
    if p + 4 > |s| then None
    else Some(Read(CodecVersions(s[p], s[p + 1], U16At(s, p + 2)), p + 4))
  }

  /** The codec-versions parser reads x at p exactly when the fields of x are stored there. */
  lemma {:induction false} CodecVersionsAt(s: Bytes, p: nat, x: CodecVersions)
    ensures ParseCodecVersions(s, p) == Some(Read(x, p + 4)) <==> FieldsAt(s, p, CodecVersionsFields(x))
  {
    var fs := CodecVersionsFields(x);
    assert FieldsAt(s, p, fs) <==> p + 1 <= |s| && s[p] == x.numCodecs && FieldsAt(s, p + 1, fs[1..]);
    assert FieldsAt(s, p + 1, fs[1..]) <==> p + 2 <= |s| && s[p + 1] == x.codecId && FieldsAt(s, p + 2, fs[2..]);
    assert FieldsAt(s, p + 2, fs[2..]) <==> p + 4 <= |s| && U16At(s, p + 2) == x.version && FieldsAt(s, p + 4, fs[3..]);
    assert fs[3..] == [];
  }

  lemma {:induction false} CodecVersionsRoundTrip(s: Bytes, p: nat, x: CodecVersions)
    requires BytesAt(s, p, Emit(CodecVersionsFields(x)))
    ensures ParseCodecVersions(s, p) == Some(Read(x, p + 4))
  {
    EmitFieldsAt(s, p, CodecVersionsFields(x), Emit(CodecVersionsFields(x)));
    CodecVersionsAt(s, p, x);
  }

  /**
   * The as-written parser loses WF_VERSION_1_0: the version's low byte is
   * 0x00, so a conforming codec-versions body reads back as version 0,
   * and the next block is looked for one byte too early.
   */
  lemma {:induction false} CodecVersionsAsWrittenLosesVersion(s: Bytes, p: nat, numCodecs: u8, codecId: u8)
    requires BytesAt(s, p, Emit(CodecVersionsFields(CodecVersions(numCodecs, codecId, WF_VERSION_1_0))))
    ensures var r := ParseCodecVersionsAsWritten(s, p);
      r.Some? && r.value.value.version == 0 && r.value.next == p + 3
      && r.value.value != CodecVersions(numCodecs, codecId, WF_VERSION_1_0)
  {
    var x := CodecVersions(numCodecs, codecId, WF_VERSION_1_0);
    var fs := CodecVersionsFields(x);
    EmitFieldsAt(s, p, fs, Emit(fs));
    assert FieldsAt(s, p + 1, fs[1..]);
    assert FieldsAt(s, p + 2, fs[2..]);
    assert U16At(s, p + 2) == 0x0100;
  }

  datatype ContextBody = ContextBody(ctxId: u8, tileSize: u16, properties: u16)

  function ContextFields(x: ContextBody): seq<Field>
  {
    [F8(x.ctxId), F16(x.tileSize), F16(x.properties)]
  }

  /** The context body: its id, the tile size, then the properties. */
  function ParseContext(s: Bytes, p: nat): (r: Option<Read<ContextBody>>)
    ensures r.Some? <==> p + 5 <= |s|
    ensures r.Some? ==> r.value.next == p + 5
  {
    if p + 5 > |s| then None
    else Some(Read(ContextBody(s[p], U16At(s, p + 1), U16At(s, p + 3)), p + 5))
  }

  /** The context parser reads x at p exactly when the fields of x are stored there. */
  lemma {:induction false} ContextAt(s: Bytes, p: nat, x: ContextBody)
    ensures ParseContext(s, p) == Some(Read(x, p + 5)) <==> FieldsAt(s, p, ContextFields(x))
  {
    var fs := ContextFields(x);
    assert FieldsAt(s, p, fs) <==> p + 1 <= |s| && s[p] == x.ctxId && FieldsAt(s, p + 1, fs[1..]);
    assert FieldsAt(s, p + 1, fs[1..]) <==> p + 3 <= |s| && U16At(s, p + 1) == x.tileSize && FieldsAt(s, p + 3, fs[2..]);
    assert FieldsAt(s, p + 3, fs[2..]) <==> p + 5 <= |s| && U16At(s, p + 3) == x.properties && FieldsAt(s, p + 5, fs[3..]);
    assert fs[3..] == [];
  }

  lemma {:induction false} ContextRoundTrip(s: Bytes, p: nat, x: ContextBody)
    requires BytesAt(s, p, Emit(ContextFields(x)))
    ensures ParseContext(s, p) == Some(Read(x, p + 5))
  {
    EmitFieldsAt(s, p, ContextFields(x), Emit(ContextFields(x)));
    ContextAt(s, p, x);
  }

  datatype FrameBegin = FrameBegin(frameIdx: u32, numRegions: u16)

  function FrameBeginFields(x: FrameBegin): seq<Field>
  {
    [F32(x.frameIdx), F16(x.numRegions)]
  }

  /** The frame-begin body: the frame index, then the region count. */
  function ParseFrameBegin(s: Bytes, p: nat): (r: Option<Read<FrameBegin>>)
    ensures r.Some? <==> p + 6 <= |s|
    ensures r.Some? ==> r.value.next == p + 6
  {
    if p + 6 > |s| then None
    else Some(Read(FrameBegin(U32At(s, p), U16At(s, p + 4)), p + 6))
  }

  /** The frame-begin parser reads x at p exactly when the fields of x are stored there. */
  lemma {:induction false} FrameBeginAt(s: Bytes, p: nat, x: FrameBegin)
    ensures ParseFrameBegin(s, p) == Some(Read(x, p + 6)) <==> FieldsAt(s, p, FrameBeginFields(x))
  {
    var fs := FrameBeginFields(x);
    assert FieldsAt(s, p, fs) <==> p + 4 <= |s| && U32At(s, p) == x.frameIdx && FieldsAt(s, p + 4, fs[1..]);
    assert FieldsAt(s, p + 4, fs[1..]) <==> p + 6 <= |s| && U16At(s, p + 4) == x.numRegions && FieldsAt(s, p + 6, fs[2..]);
    assert fs[2..] == [];
  }

  lemma {:induction false} FrameBeginRoundTrip(s: Bytes, p: nat, x: FrameBegin)
    requires BytesAt(s, p, Emit(FrameBeginFields(x)))
    ensures ParseFrameBegin(s, p) == Some(Read(x, p + 6))
  {
    EmitFieldsAt(s, p, FrameBeginFields(x), Emit(FrameBeginFields(x)));
    FrameBeginAt(s, p, x);
  }

  /** A TS_RFX_TILE body after its block header. */
  datatype TileBody = TileBody(quantIdxY: u8, quantIdxCb: u8, quantIdxCr: u8,
                               xIdx: u16, yIdx: u16, yLen: u16, cbLen: u16, crLen: u16)

  function TileFields(x: TileBody): seq<Field>
  {
    [F8(x.quantIdxY), F8(x.quantIdxCb), F8(x.quantIdxCr), F16(x.xIdx), F16(x.yIdx),
     F16(x.yLen), F16(x.cbLen), F16(x.crLen)]
  }

  /** The tile body: three quant indices, the tile position, then the three plane lengths. */
  function ParseTile(s: Bytes, p: nat): (r: Option<Read<TileBody>>)
    ensures r.Some? <==> p + 13 <= |s|
    ensures r.Some? ==> r.value.next == p + 13
  {
    if p + 13 > |s| then None
    else Some(Read(TileBody(s[p], s[p + 1], s[p + 2], U16At(s, p + 3), U16At(s, p + 5),
                            U16At(s, p + 7), U16At(s, p + 9), U16At(s, p + 11)), p + 13))
  }

  /** The tile parser reads x at p exactly when the fields of x are stored there. */
  lemma {:induction false} TileAt(s: Bytes, p: nat, x: TileBody)
    ensures ParseTile(s, p) == Some(Read(x, p + 13)) <==> FieldsAt(s, p, TileFields(x))
  {
    TileFieldsAt(s, p, x);
  }

  /** The fields of a tile body stored at p, one by one. */
  lemma {:induction false} TileFieldsAt(s: Bytes, p: nat, x: TileBody)
    ensures FieldsAt(s, p, TileFields(x)) <==>
      p + 13 <= |s| && s[p] == x.quantIdxY && s[p + 1] == x.quantIdxCb && s[p + 2] == x.quantIdxCr
      && U16At(s, p + 3) == x.xIdx && U16At(s, p + 5) == x.yIdx && U16At(s, p + 7) == x.yLen
      && U16At(s, p + 9) == x.cbLen && U16At(s, p + 11) == x.crLen
  {
    var fs := TileFields(x);
    assert FieldsAt(s, p, fs) <==> p + 1 <= |s| && s[p] == x.quantIdxY && FieldsAt(s, p + 1, fs[1..]);
    assert FieldsAt(s, p + 1, fs[1..]) <==> p + 2 <= |s| && s[p + 1] == x.quantIdxCb && FieldsAt(s, p + 2, fs[2..]);
    assert FieldsAt(s, p + 2, fs[2..]) <==> p + 3 <= |s| && s[p + 2] == x.quantIdxCr && FieldsAt(s, p + 3, fs[3..]);
    assert FieldsAt(s, p + 3, fs[3..]) <==> p + 5 <= |s| && U16At(s, p + 3) == x.xIdx && FieldsAt(s, p + 5, fs[4..]);
    assert FieldsAt(s, p + 5, fs[4..]) <==> p + 7 <= |s| && U16At(s, p + 5) == x.yIdx && FieldsAt(s, p + 7, fs[5..]);
    assert FieldsAt(s, p + 7, fs[5..]) <==> p + 9 <= |s| && U16At(s, p + 7) == x.yLen && FieldsAt(s, p + 9, fs[6..]);
    assert FieldsAt(s, p + 9, fs[6..]) <==> p + 11 <= |s| && U16At(s, p + 9) == x.cbLen && FieldsAt(s, p + 11, fs[7..]);
    assert FieldsAt(s, p + 11, fs[7..]) <==> p + 13 <= |s| && U16At(s, p + 11) == x.crLen && FieldsAt(s, p + 13, fs[8..]);
    assert fs[8..] == [];
  }

  lemma {:induction false} TileRoundTrip(s: Bytes, p: nat, x: TileBody)
    requires BytesAt(s, p, Emit(TileFields(x)))
    ensures ParseTile(s, p) == Some(Read(x, p + 13))
  {
    EmitFieldsAt(s, p, TileFields(x), Emit(TileFields(x)));
    TileAt(s, p, x);
  }

  // -----------------------------------------------------------------------
  // Counted lists: channels and region rects
  // -----------------------------------------------------------------------

  /** A TS_RFX_CHANNELT entry. */
  datatype Channel = Channel(channelId: u8, width: u16, height: u16)

  function ChannelHead(c: Channel): seq<Field>
  {
    [F8(c.channelId), F16(c.width), F16(c.height)]
  }

  function ChannelFields(cs: seq<Channel>): (fs: seq<Field>)
    ensures |fs| == 3 * |cs|
  {
    if |cs| == 0 then [] else ChannelHead(cs[0]) + ChannelFields(cs[1..])
  }

  /** The channel stored at p. */
  function ChannelAt(s: Bytes, p: nat): Channel
    requires p + 5 <= |s|
  {
    Channel(s[p], U16At(s, p + 1), U16At(s, p + 3))
  }

  /** n channels of five bytes each, read in order from p. */
  function ParseChannelList(s: Bytes, p: nat, n: nat): (r: Option<Read<seq<Channel>>>)
    ensures r.Some? <==> p + 5 * n <= |s|
    ensures r.Some? ==> |r.value.value| == n && r.value.next == p + 5 * n
    ensures r.Some? ==> forall k :: 0 <= k < n ==> r.value.value[k] == ChannelAt(s, p + 5 * k)
    decreases n
  {
    if n == 0 then (if p <= |s| then Some(Read([], p)) else None)
    else if p + 5 > |s| then None
    else
      match ParseChannelList(s, p + 5, n - 1)
      case None => None
      case Some(rest) => Some(Read([ChannelAt(s, p)] + rest.value, rest.next))
  }

  /**
   * The channels body: a one-byte count, then that many channels. A zero
   * count keeps the caller's channel list (and count).
   */
  function ParseChannels(s: Bytes, p: nat, prev: seq<Channel>): (r: Option<Read<seq<Channel>>>)
    ensures r.Some? ==> p < |s|
    ensures r.Some? && s[p] == 0 ==> r.value == Read(prev, p + 1)
    ensures r.Some? && s[p] > 0 ==> |r.value.value| == s[p] as int && r.value.next == p + 1 + 5 * s[p] as int
    ensures r.Some? <==> p < |s| && (s[p] == 0 || p + 1 + 5 * s[p] as int <= |s|)
  {
    if p + 1 > |s| then None
    else if s[p] < 1 then Some(Read(prev, p + 1))
    else ParseChannelList(s, p + 1, s[p] as nat)
  }

  /** One written channel is stored as its three fields. */
  lemma {:induction false} ChannelHeadAt(s: Bytes, p: nat, c: Channel, a: Bytes)
    requires a == Emit(ChannelHead(c)) && BytesAt(s, p, a)
    ensures |a| == 5 && p + 5 <= |s| && ChannelAt(s, p) == c
  {
    var fs := ChannelHead(c);
    EmitFieldsAt(s, p, fs, a);
    assert FieldsAt(s, p + 1, fs[1..]);
    assert FieldsAt(s, p + 3, fs[2..]);
    assert a == [c.channelId] + LE16(c.width) + LE16(c.height) by {
      assert Emit(fs[2..]) == LE16(c.height) + Emit(fs[3..]);
    }
  }

  /** The first channel, then the rest from where it ends, make up the list. */
  lemma {:induction false} ChannelListStep(s: Bytes, p: nat, cs: seq<Channel>, q: nat)
    requires |cs| > 0 && p + 5 <= |s| && ChannelAt(s, p) == cs[0]
    requires ParseChannelList(s, p + 5, |cs| - 1) == Some(Read(cs[1..], q))
    ensures ParseChannelList(s, p, |cs|) == Some(Read(cs, q))
  {
    assert [cs[0]] + cs[1..] == cs;
  }

  /** A written channel list, wherever it sits in a buffer, reads back as the channels. */
  lemma {:induction false} ChannelListRoundTrip(s: Bytes, p: nat, cs: seq<Channel>)
    requires BytesAt(s, p, Emit(ChannelFields(cs)))
    ensures ParseChannelList(s, p, |cs|) == Some(Read(cs, p + 5 * |cs|))
    decreases |cs|
  {
    if |cs| == 0 {
      assert Emit(ChannelFields(cs)) == [];
    } else {
      EmitSplitAt(s, p, ChannelHead(cs[0]), ChannelFields(cs[1..]));
      ChannelHeadAt(s, p, cs[0], Emit(ChannelHead(cs[0])));
      ChannelListRoundTrip(s, p + 5, cs[1..]);
      ChannelListStep(s, p, cs, p + 5 * |cs|);
    }
  }

  /** A channels body, a count byte then that many written channels, reads back as the channels. */
  lemma {:induction false} ChannelsRoundTrip(s: Bytes, p: nat, cs: seq<Channel>, prev: seq<Channel>)
    requires 0 < |cs| && p < |s| && s[p] as int == |cs|
    requires BytesAt(s, p + 1, Emit(ChannelFields(cs)))
    ensures ParseChannels(s, p, prev) == Some(Read(cs, p + 1 + 5 * |cs|))
  {
    ChannelsCounted(s, p, prev);
    ChannelListRoundTrip(s, p + 1, cs);
  }

  /** A non-zero count hands the rest of the body to the list parser. */
  lemma {:induction false} ChannelsCounted(s: Bytes, p: nat, prev: seq<Channel>)
    requires p < |s| && s[p] > 0
    ensures ParseChannels(s, p, prev) == ParseChannelList(s, p + 1, s[p] as nat)
  {
  }

  /** A TS_RFX_RECT entry. */
  datatype RfxRect = RfxRect(x: u16, y: u16, width: u16, height: u16)

  function RectHead(r: RfxRect): seq<Field>
  {
    [F16(r.x), F16(r.y), F16(r.width), F16(r.height)]
  }

  function RectFields(rs: seq<RfxRect>): (fs: seq<Field>)
    ensures |fs| == 4 * |rs|
  {
    if |rs| == 0 then [] else RectHead(rs[0]) + RectFields(rs[1..])
  }

  /** The rect stored at p. */
  function RectAt(s: Bytes, p: nat): RfxRect
    requires p + 8 <= |s|
  {
    RfxRect(U16At(s, p), U16At(s, p + 2), U16At(s, p + 4), U16At(s, p + 6))
  }

  /** n rects of eight bytes each, read in order from p. */
  function ParseRectList(s: Bytes, p: nat, n: nat): (r: Option<Read<seq<RfxRect>>>)
    ensures r.Some? <==> p + 8 * n <= |s|
    ensures r.Some? ==> |r.value.value| == n && r.value.next == p + 8 * n
    ensures r.Some? ==> forall k :: 0 <= k < n ==> r.value.value[k] == RectAt(s, p + 8 * k)
    decreases n
  {
    if n == 0 then (if p <= |s| then Some(Read([], p)) else None)
    else if p + 8 > |s| then None
    else
      match ParseRectList(s, p + 8, n - 1)
      case None => None
      case Some(rest) => Some(Read([RectAt(s, p)] + rest.value, rest.next))
  }

  /**
   * The region body: a flags byte, a two-byte count, then that many rects.
   * A zero count keeps the caller's rect list (and count).
   */
  function ParseRegion(s: Bytes, p: nat, prev: seq<RfxRect>): (r: Option<Read<seq<RfxRect>>>)
    ensures r.Some? ==> p + 3 <= |s|
    ensures r.Some? && U16At(s, p + 1) == 0 ==> r.value == Read(prev, p + 3)
    ensures r.Some? && U16At(s, p + 1) > 0 ==>
      |r.value.value| == U16At(s, p + 1) && r.value.next == p + 3 + 8 * U16At(s, p + 1)
    ensures r.Some? <==> p + 3 <= |s| && (U16At(s, p + 1) == 0 || p + 3 + 8 * U16At(s, p + 1) <= |s|)
  {
    if p + 3 > |s| then None
    else
      var n := U16At(s, p + 1);
      if n < 1 then Some(Read(prev, p + 3))
      else ParseRectList(s, p + 3, n)
  }

  /** One written rect is stored as its four fields. */
  lemma {:induction false} RectHeadAt(s: Bytes, p: nat, r: RfxRect, a: Bytes)
    requires a == Emit(RectHead(r)) && BytesAt(s, p, a)
    ensures |a| == 8 && p + 8 <= |s| && RectAt(s, p) == r
  {
    var fs := RectHead(r);
    EmitFieldsAt(s, p, fs, a);
    assert FieldsAt(s, p + 2, fs[1..]);
    assert FieldsAt(s, p + 4, fs[2..]);
    assert FieldsAt(s, p + 6, fs[3..]);
    assert a == LE16(r.x) + LE16(r.y) + LE16(r.width) + LE16(r.height) by {
      assert Emit(fs[3..]) == LE16(r.height) + Emit(fs[4..]);
      assert Emit(fs[2..]) == LE16(r.width) + Emit(fs[3..]);
    }
  }

  /** The first rect, then the rest from where it ends, make up the list. */
  lemma {:induction false} RectListStep(s: Bytes, p: nat, rs: seq<RfxRect>, q: nat)
    requires |rs| > 0 && p + 8 <= |s| && RectAt(s, p) == rs[0]
    requires ParseRectList(s, p + 8, |rs| - 1) == Some(Read(rs[1..], q))
    ensures ParseRectList(s, p, |rs|) == Some(Read(rs, q))
  {
    assert [rs[0]] + rs[1..] == rs;
  }

  /** A written rect list, wherever it sits in a buffer, reads back as the rects. */
  lemma {:induction false} RectListRoundTrip(s: Bytes, p: nat, rs: seq<RfxRect>)
    requires BytesAt(s, p, Emit(RectFields(rs)))
    ensures ParseRectList(s, p, |rs|) == Some(Read(rs, p + 8 * |rs|))
    decreases |rs|
  {
    if |rs| == 0 {
      assert Emit(RectFields(rs)) == [];
    } else {
      EmitSplitAt(s, p, RectHead(rs[0]), RectFields(rs[1..]));
      RectHeadAt(s, p, rs[0], Emit(RectHead(rs[0])));
      RectListRoundTrip(s, p + 8, rs[1..]);
      RectListStep(s, p, rs, p + 8 * |rs|);
    }
  }

  /** A region body, flags and a count then that many written rects, reads back as the rects. */
  lemma {:induction false} RegionRoundTrip(s: Bytes, p: nat, rs: seq<RfxRect>, prev: seq<RfxRect>)
    requires 0 < |rs| && p + 3 <= |s| && U16At(s, p + 1) == |rs|
    requires BytesAt(s, p + 3, Emit(RectFields(rs)))
    ensures ParseRegion(s, p, prev) == Some(Read(rs, p + 3 + 8 * |rs|))
  {
    RegionCounted(s, p, prev);
    RectListRoundTrip(s, p + 3, rs);
  }

  /** A non-zero count hands the rest of the body to the list parser. */
  lemma {:induction false} RegionCounted(s: Bytes, p: nat, prev: seq<RfxRect>)
    requires p + 3 <= |s| && U16At(s, p + 1) > 0
    ensures ParseRegion(s, p, prev) == ParseRectList(s, p + 3, U16At(s, p + 1))
  {
  }

  // -----------------------------------------------------------------------
  // Tileset
  // -----------------------------------------------------------------------

  /** Each quant byte holds two four-bit values, low nibble first. */
  function ExpandQuants(bs: Bytes): (q: seq<nat>)
    ensures |q| == 2 * |bs|
    ensures forall k :: 0 <= k < |bs| ==> q[2 * k] == bs[k] % 16 && q[2 * k + 1] == bs[k] / 16
  {
    if |bs| == 0 then [] else
      ExpandQuants(bs[..|bs| - 1]) + [bs[|bs| - 1] as nat % 16, bs[|bs| - 1] as nat / 16]
  }

  /** Every expanded quant value fits in four bits. */
  lemma {:induction false} ExpandedQuantsAreNibbles(bs: Bytes)
    ensures forall k :: 0 <= k < |ExpandQuants(bs)| ==> ExpandQuants(bs)[k] < 16
  {
    var q := ExpandQuants(bs);
    forall k | 0 <= k < |q| ensures q[k] < 16 {
      var j := k / 2;
      if k % 2 == 0 {
        assert q[2 * j] == bs[j] % 16;
      } else {
        assert q[2 * j + 1] == bs[j] / 16;
      }
    }
  }

  /** What the tileset parser hands back to its caller: the counts and the quant table. */
  datatype Tileset = Tileset(numQuants: u8, numTiles: u16, quants: seq<nat>)

  /** The tileset subtype field at p is CBT_TILESET. */
  predicate IsTileset(s: Bytes, p: nat)
  {
    p + 2 <= |s| && U16At(s, p) == CBT_TILESET
  }

  /**
   * The tileset body up to its tiles: subtype, idx and properties
   * (skipped), numQuants, tileSize (skipped), numTiles, tilesDataSize,
   * then five bytes per quant. The counts are written back as soon as
   * they are read, so a body that stops early (wrong subtype, no quants,
   * no tiles) updates the counts read before the stop and keeps the
   * caller's quant table.
   */
  function ParseTileset(s: Bytes, p: nat, prev: Tileset): (r: Option<Read<Tileset>>)
    ensures r.Some? ==> p + 2 <= |s|
    ensures r.Some? && !IsTileset(s, p) ==> r.value == Read(prev, p + 2)
    ensures r.Some? && IsTileset(s, p) ==> p + 7 <= |s| && r.value.value.numQuants == s[p + 6]
    ensures r.Some? && IsTileset(s, p) && s[p + 6] == 0 ==> r.value == Read(prev.(numQuants := 0), p + 8)
    ensures r.Some? && IsTileset(s, p) && s[p + 6] > 0 ==>
      p + 10 <= |s| && r.value.value.numTiles == U16At(s, p + 8)
    ensures r.Some? && IsTileset(s, p) && s[p + 6] > 0 && U16At(s, p + 8) == 0 ==>
      r.value == Read(prev.(numQuants := s[p + 6], numTiles := 0), p + 10)
    ensures r.Some? && IsTileset(s, p) && s[p + 6] > 0 && U16At(s, p + 8) > 0 ==>
      var nq := s[p + 6] as int;
      p + 14 + 5 * nq <= |s| && r.value.next == p + 14 + 5 * nq &&
      r.value.value.quants == ExpandQuants(s[p + 14..p + 14 + 5 * nq])
  {
    if p + 2 > |s| then None
    else if U16At(s, p) != CBT_TILESET then Some(Read(prev, p + 2))
    else if p + 7 > |s| then None
    else
      var numQuants := s[p + 6];
      if numQuants < 1 then Some(Read(prev.(numQuants := numQuants), p + 8))
      else if p + 10 > |s| then None
      else
        var numTiles := U16At(s, p + 8);
        if numTiles < 1 then Some(Read(prev.(numQuants := numQuants, numTiles := numTiles), p + 10))
        else
          var q := p + 14;
          var end := q + 5 * numQuants as nat;
          if end > |s| then None
          else Some(Read(Tileset(numQuants, numTiles, ExpandQuants(s[q..end])), end))
  }

  // -----------------------------------------------------------------------
  // What the parsers read
  // -----------------------------------------------------------------------

  /** n rects read from p depend only on the 8 * n bytes there. */
  lemma {:induction false} RectListReads(s: Bytes, t: Bytes, p: nat, n: nat)
    requires Agree(s, t, p, p + 8 * n)
    ensures ParseRectList(s, p, n) == ParseRectList(t, p, n)
    decreases n
  {
    if n > 0 && p + 8 <= |s| {
      RectListReads(s, t, p + 8, n - 1);
      assert RectAt(s, p) == RectAt(t, p);
    }
  }

  /** n channels read from p depend only on the 5 * n bytes there. */
  lemma {:induction false} ChannelListReads(s: Bytes, t: Bytes, p: nat, n: nat)
    requires Agree(s, t, p, p + 5 * n)
    ensures ParseChannelList(s, p, n) == ParseChannelList(t, p, n)
    decreases n
  {
    if n > 0 && p + 5 <= |s| {
      ChannelListReads(s, t, p + 5, n - 1);
      assert ChannelAt(s, p) == ChannelAt(t, p);
    }
  }

  /** The tileset body depends only on the bytes from p on. */
  lemma {:induction false} TilesetReads(s: Bytes, t: Bytes, p: nat, prev: Tileset)
    requires Agree(s, t, p, |s|)
    ensures ParseTileset(s, p, prev) == ParseTileset(t, p, prev)
  {
    if p + 14 <= |s| {
      var end := p + 14 + 5 * s[p + 6] as nat;
      if end <= |s| {
        assert s[p + 14..end] == t[p + 14..end];
      }
    }
  }
}
