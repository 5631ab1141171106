/**
 * The RemoteFX message composer: the block writers of the encoder, the
 * two-pass length patching of tiles and tilesets, the tile grid, and the
 * once-only header.
 *
 * The wavelet and entropy encoder is a parameter: given a tile job it
 * yields the three encoded component planes, whose byte lengths are the
 * YLen, CbLen and CrLen it reports.
 */
module RfxCompose {
  import opened Common
  import opened RfxWire
  import opened RfxParse

  /** The encoder context (RFX_COMPOSE_CONTEXT) as the message writers use it. */
  datatype ComposeContext = ComposeContext(
    flags: u16, width: u16, height: u16,
    mode: RlgrMode, properties: u16,
    pixelFormat: PixelFormat, bitsPerPixel: u8,
    frameIdx: u32, headerProcessed: bool,
    numQuants: u8, quants: seq<nat>, quantIdxY: u8, quantIdxCb: u8, quantIdxCr: u8)

  /** A freshly allocated, zeroed context with the default pixel format. */
  function NewComposeContext(): (c: ComposeContext)
    ensures c.frameIdx == 0 && !c.headerProcessed && c.numQuants == 0
    ensures c.pixelFormat == B8G8R8A8 && c.bitsPerPixel == 32
  {
    ComposeSetPixelFormat(ComposeContext(0, 0, 0, RLGR1, 0, OtherFormat(0), 0, 0, false, 0, [], 0, 0, 0), B8G8R8A8)
  }

  /** The composer's own bits-per-pixel table is the codec's. */
  function ComposeSetPixelFormat(c: ComposeContext, f: PixelFormat): (r: ComposeContext)
    ensures r.pixelFormat == f && r.bitsPerPixel == BitsPerPixel(f)
    ensures r.(pixelFormat := c.pixelFormat, bitsPerPixel := c.bitsPerPixel) == c
  {
    c.(pixelFormat := f, bitsPerPixel := BitsPerPixel(f))
  }

  /** Reset starts a new stream: the next message carries the header again. */
  function ComposeReset(c: ComposeContext): (r: ComposeContext)
    ensures r.frameIdx == 0 && !r.headerProcessed
    ensures r.(frameIdx := c.frameIdx, headerProcessed := c.headerProcessed) == c
  {
    c.(headerProcessed := false, frameIdx := 0)
  }

  /** The quantisation values the encoder uses when the context has none. */
  const DefaultQuants: seq<nat> := [6, 6, 6, 6, 7, 7, 8, 8, 8, 9]

  // -----------------------------------------------------------------------
  // Fixed blocks
  // -----------------------------------------------------------------------

  /** The sync block: the magic number and version 1.0; its length field holds 12. */
  function SyncBlock(): (b: Bytes)
    ensures |b| == 12 && U16At(b, 0) == WBT_SYNC && U32At(b, 2) == |b|
  {
    var x := Sync(WF_MAGIC, WF_VERSION_1_0);
    SizeByWidths(SyncFields(x), [W32, W16]);
    BlockAt(Emit(BlockHeader(WBT_SYNC, 12) + SyncFields(x)), WBT_SYNC, 12, SyncFields(x));
    Emit(BlockHeader(WBT_SYNC, 12) + SyncFields(x))
  }

  /** The sync block reads back as the magic number and version 1.0. */
  lemma {:induction false} SyncBlockReads()
    ensures ParseSync(SyncBlock(), 6) == Some(Read(Sync(WF_MAGIC, WF_VERSION_1_0), 12))
  {
    var x := Sync(WF_MAGIC, WF_VERSION_1_0);
    BlockAt(SyncBlock(), WBT_SYNC, 12, SyncFields(x));
    SyncRoundTrip(SyncBlock(), 6, x);
  }

  /** The codec-versions block announces one codec, id 1, version 1.0. */
  function CodecVersionsBlock(): (b: Bytes)
    ensures |b| == 10 && U16At(b, 0) == WBT_CODEC_VERSIONS && U32At(b, 2) == |b|
  {
    var x := CodecVersions(1, 1, WF_VERSION_1_0);
    SizeByWidths(CodecVersionsFields(x), [W8, W8, W16]);
    BlockAt(Emit(BlockHeader(WBT_CODEC_VERSIONS, 10) + CodecVersionsFields(x)), WBT_CODEC_VERSIONS, 10, CodecVersionsFields(x));
    Emit(BlockHeader(WBT_CODEC_VERSIONS, 10) + CodecVersionsFields(x))
  }

  /** The codec-versions block reads back, with a two-byte version read. */
  lemma {:induction false} CodecVersionsBlockReads()
    ensures ParseCodecVersions(CodecVersionsBlock(), 6) == Some(Read(CodecVersions(1, 1, WF_VERSION_1_0), 10))
  {
    var x := CodecVersions(1, 1, WF_VERSION_1_0);
    BlockAt(CodecVersionsBlock(), WBT_CODEC_VERSIONS, 10, CodecVersionsFields(x));
    CodecVersionsRoundTrip(CodecVersionsBlock(), 6, x);
  }

  /** The one channel the composer announces: id 0, the context's size. */
  function ComposeChannel(c: ComposeContext): Channel
  {
    Channel(0, c.width, c.height)
  }

  /** The channels block announces one channel of the context's size. */
  function ChannelsBlock(c: ComposeContext): (b: Bytes)
    ensures |b| == 12 && U16At(b, 0) == WBT_CHANNELS && U32At(b, 2) == |b|
  {
    var body := [F8(1)] + ChannelFields([ComposeChannel(c)]);
    ChannelsBodySize(c);
    BlockAt(Emit(BlockHeader(WBT_CHANNELS, 12) + body), WBT_CHANNELS, 12, body);
    Emit(BlockHeader(WBT_CHANNELS, 12) + body)
  }

  lemma {:induction false} ChannelsBodySize(c: ComposeContext)
    ensures |Emit([F8(1)])| == 1 && |Emit(ChannelFields([ComposeChannel(c)]))| == 5
    ensures |Emit([F8(1)] + ChannelFields([ComposeChannel(c)]))| == 6
  {
    var ch := ComposeChannel(c);
    assert ChannelFields([ch]) == ChannelHead(ch);
    SizeByWidths(ChannelHead(ch), [W8, W16, W16]);
    OneField(F8(1));
    EmitConcat([F8(1)], ChannelFields([ch]));
  }

  /** The channels block reads back as the one channel, whatever the decoder held before. */
  lemma {:induction false} ChannelsBlockReads(c: ComposeContext, prev: seq<Channel>)
    ensures ParseChannels(ChannelsBlock(c), 6, prev) == Some(Read([ComposeChannel(c)], 12))
  {
    var b := ChannelsBlock(c);
    var cs := [ComposeChannel(c)];
    BlockAt(b, WBT_CHANNELS, 12, [F8(1)] + ChannelFields(cs));
    EmitSplitAt(b, 6, [F8(1)], ChannelFields(cs));
    ChannelsBodySize(c);
    ByteAt(b, 6, 1);
    ChannelsRoundTrip(b, 6, cs, prev);
  }

  /** The entropy algorithm id of a mode. */
  function EntropyId(m: RlgrMode): (e: u16)
    ensures e == CLW_ENTROPY_RLGR1 <==> m == RLGR1
  {
    if m == RLGR1 then CLW_ENTROPY_RLGR1 else CLW_ENTROPY_RLGR3
  }

  /** TS_RFX_CONTEXT properties: flags, cct, xft, et and qt bit fields. */
  function ContextProperties(c: ComposeContext): (p: u16)
    ensures c.flags < 8 ==> p as int == c.flags as int + 0x0008 + 0x0020 + 0x0200 * EntropyId(c.mode) as int + 0x2000
  {
    ((c.flags as bv16) | ((COL_CONV_ICT as bv16) << 3) | ((CLW_XFORM_DWT_53_A as bv16) << 5)
      | ((EntropyId(c.mode) as bv16) << 9) | ((SCALAR_QUANTIZATION as bv16) << 13)) as u16
  }

  /** Tileset properties: lt, flags, cct, xft, et and qt, one bit further up than in the context. */
  function TilesetProperties(c: ComposeContext): (p: u16)
    ensures c.flags < 8 ==> p as int == 1 + 2 * c.flags as int + 0x0010 + 0x0040 + 0x0400 * EntropyId(c.mode) as int + 0x4000
  {
    (1 | ((c.flags as bv16) << 1) | ((COL_CONV_ICT as bv16) << 4) | ((CLW_XFORM_DWT_53_A as bv16) << 6)
      | ((EntropyId(c.mode) as bv16) << 10) | ((SCALAR_QUANTIZATION as bv16) << 14)) as u16
  }

  /** The context body the composer writes: context 0, 64-pixel tiles, the context properties. */
  function ComposeContextBody(c: ComposeContext): ContextBody
  {
    ContextBody(0, CT_TILE_64x64, ContextProperties(c))
  }

  function ContextBlock(c: ComposeContext): (b: Bytes)
    ensures |b| == 13 && U16At(b, 0) == WBT_CONTEXT && U32At(b, 2) == |b|
  {
    var fs := ContextFields(ComposeContextBody(c));
    SizeByWidths(fs, [W8, W16, W16]);
    ChannelBlockAt(Emit(BlockHeader(WBT_CONTEXT, 13) + (CodecChannel + fs)), WBT_CONTEXT, 13, fs);
    Emit(BlockHeader(WBT_CONTEXT, 13) + (CodecChannel + fs))
  }

  /** The context block reads back as the body written. */
  lemma {:induction false} ContextBlockReads(c: ComposeContext)
    ensures ParseContext(ContextBlock(c), 8) == Some(Read(ComposeContextBody(c), 13))
  {
    ChannelBlockAt(ContextBlock(c), WBT_CONTEXT, 13, ContextFields(ComposeContextBody(c)));
    ContextRoundTrip(ContextBlock(c), 8, ComposeContextBody(c));
  }

  /** The frame-begin block carries the frame index and one region. */
  function FrameBeginBlock(c: ComposeContext): (b: Bytes)
    ensures |b| == 14 && U16At(b, 0) == WBT_FRAME_BEGIN && U32At(b, 2) == |b|
  {
    var fs := FrameBeginFields(FrameBegin(c.frameIdx, 1));
    SizeByWidths(fs, [W32, W16]);
    ChannelBlockAt(Emit(BlockHeader(WBT_FRAME_BEGIN, 14) + (CodecChannel + fs)), WBT_FRAME_BEGIN, 14, fs);
    Emit(BlockHeader(WBT_FRAME_BEGIN, 14) + (CodecChannel + fs))
  }

  /** The frame-begin block reads back as the context's frame index and one region. */
  lemma {:induction false} FrameBeginBlockReads(c: ComposeContext)
    ensures ParseFrameBegin(FrameBeginBlock(c), 8) == Some(Read(FrameBegin(c.frameIdx, 1), 14))
  {
    ChannelBlockAt(FrameBeginBlock(c), WBT_FRAME_BEGIN, 14, FrameBeginFields(FrameBegin(c.frameIdx, 1)));
    FrameBeginRoundTrip(FrameBeginBlock(c), 8, FrameBegin(c.frameIdx, 1));
  }

  /** The frame-end block is a bare codec-channel header. */
  function FrameEndBlock(): (b: Bytes)
    ensures |b| == 8 && U16At(b, 0) == WBT_FRAME_END && U32At(b, 2) == |b|
  {
    ChannelBlockAt(Emit(BlockHeader(WBT_FRAME_END, 8) + (CodecChannel + [])), WBT_FRAME_END, 8, []);
    Emit(BlockHeader(WBT_FRAME_END, 8) + (CodecChannel + []))
  }

  // -----------------------------------------------------------------------
  // Region
  // -----------------------------------------------------------------------

  /** The region body after the codec channel: regionFlags, numRects, the rects, regionType, numTilesets. */
  function RegionBody(rects: seq<RfxRect>): seq<Field>
  {
    [F8(1), F16(Trunc16(|rects|))] + RectFields(rects) + [F16(CBT_REGION), F16(1)]
  }

  /** The region block; its length field holds 15 + 8 per rect, cut to 32 bits. */
  function RegionBlock(rects: seq<RfxRect>): (b: Bytes)
    ensures |b| == 15 + 8 * |rects| && U16At(b, 0) == WBT_REGION && U32At(b, 2) == Trunc32(|b|)
  {
    var len := Trunc32(15 + 8 * |rects|);
    RegionBodySize(rects);
    ChannelBlockAt(Emit(BlockHeader(WBT_REGION, len) + (CodecChannel + RegionBody(rects))), WBT_REGION, len, RegionBody(rects));
    Emit(BlockHeader(WBT_REGION, len) + (CodecChannel + RegionBody(rects)))
  }

  lemma {:induction false} RegionBodySize(rects: seq<RfxRect>)
    ensures |Emit(RegionBody(rects))| == 7 + 8 * |rects|
  {
    var a, b, c := [F8(1), F16(Trunc16(|rects|))], RectFields(rects), [F16(CBT_REGION), F16(1)];
    EmitConcat(a, b);
    EmitConcat(a + b, c);
    SizeByWidths(a, [W8, W16]);
    SizeByWidths(c, [W16, W16]);
    RectFieldsSize(rects);
  }

  lemma {:induction false} RectFieldsSize(rects: seq<RfxRect>)
    ensures |Emit(RectFields(rects))| == 8 * |rects|
    decreases |rects|
  {
    if |rects| > 0 {
      EmitConcat(RectHead(rects[0]), RectFields(rects[1..]));
      SizeByWidths(RectHead(rects[0]), [W16, W16, W16, W16]);
      RectFieldsSize(rects[1..]);
    }
  }

  /** The fields of a rect list are those of any prefix, then those of the rest. */
  lemma {:induction false} RectFieldsSplit(rects: seq<RfxRect>, k: nat)
    requires k <= |rects|
    ensures RectFields(rects) == RectFields(rects[..k]) + RectFields(rects[k..])
    decreases k
  {
    if k == 0 {
      assert rects[..0] == [] && rects[0..] == rects;
    } else {
      RectFieldsSplit(rects[1..], k - 1);
      assert rects[..k][1..] == rects[1..][..k - 1];
      assert rects[1..][k - 1..] == rects[k..];
    }
  }

  /**
   * The region block reads back as its rects. The count field holds the
   * number of rects cut to 16 bits, so the decoder takes that many of
   * them; a count of zero leaves the decoder's previous rects in place.
   */
  lemma {:induction false} RegionBlockReads(rects: seq<RfxRect>, prev: seq<RfxRect>)
    ensures var k := Trunc16(|rects|) as nat;
      ParseRegion(RegionBlock(rects), 8, prev) == Some(Read(if k == 0 then prev else rects[..k], 11 + 8 * k))
  {
    var b := RegionBlock(rects);
    RegionCountAt(b, rects);
    if Trunc16(|rects|) > 0 {
      RegionPrefixReads(b, rects, Trunc16(|rects|), prev);
    }
  }

  /** With a count of k in front of the rects, the decoder reads the first k of them. */
  lemma {:induction false} RegionPrefixReads(b: Bytes, rects: seq<RfxRect>, k: nat, prev: seq<RfxRect>)
    requires 0 < k <= |rects| && 11 <= |b| && U16At(b, 9) == k
    requires BytesAt(b, 11, Emit(RectFields(rects)))
    ensures ParseRegion(b, 8, prev) == Some(Read(rects[..k], 11 + 8 * k))
  {
    RectFieldsSplit(rects, k);
    EmitSplitAt(b, 11, RectFields(rects[..k]), RectFields(rects[k..]));
    RegionRoundTrip(b, 8, rects[..k], prev);
  }

  /** In a written region block the rect count sits at offset 9 and the rects follow from 11. */
  lemma {:induction false} RegionCountAt(b: Bytes, rects: seq<RfxRect>)
    requires b == RegionBlock(rects)
    ensures 11 <= |b| && U16At(b, 9) == Trunc16(|rects|)
    ensures BytesAt(b, 11, Emit(RectFields(rects)))
  {
    ChannelBlockAt(b, WBT_REGION, Trunc32(15 + 8 * |rects|), RegionBody(rects));
    RegionBodyAt(b, 8, rects);
  }

  /** A written region body, wherever it sits, has its count one byte in and its rects three bytes in. */
  lemma {:induction false} RegionBodyAt(b: Bytes, p: nat, rects: seq<RfxRect>)
    requires BytesAt(b, p, Emit(RegionBody(rects)))
    ensures p + 3 <= |b| && U16At(b, p + 1) == Trunc16(|rects|)
    ensures BytesAt(b, p + 3, Emit(RectFields(rects)))
  {
    var a, rf := [F8(1), F16(Trunc16(|rects|))], RectFields(rects);
    EmitSplitAt(b, p, a + rf, [F16(CBT_REGION), F16(1)]);
    EmitSplitAt(b, p, a, rf);
    SizeByWidths(a, [W8, W16]);
    EmitFieldsAt(b, p, a, Emit(a));
    assert FieldsAt(b, p + 1, a[1..]);
  }

  // -----------------------------------------------------------------------
  // Quantisation values
  // -----------------------------------------------------------------------

  /**
   * Two quantisation values in one byte, the first in the low nibble. The
   * sum is formed in 32 bits and written as a byte; 2^32 is a multiple of
   * 256, so only the low eight bits of the exact sum matter.
   */
  function PackQuant(lo: nat, hi: nat): u8
  {
    Trunc8(lo + hi * 16)
  }

  /** n packed bytes from the value list, two values per byte. */
  function QuantFields(vals: seq<nat>, n: nat): (fs: seq<Field>)
    requires 2 * n <= |vals|
    ensures |fs| == n
    ensures forall k :: 0 <= k < n ==> fs[k] == F8(PackQuant(vals[2 * k], vals[2 * k + 1]))
  {
    if n == 0 then [] else QuantFields(vals, n - 1) + [F8(PackQuant(vals[2 * (n - 1)], vals[2 * (n - 1) + 1]))]
  }

  /** The quant table and indices a tileset uses. */
  datatype QuantSet = QuantSet(numQuants: u8, vals: seq<nat>, idxY: u8, idxCb: u8, idxCr: u8)

  /** The context holds ten values for each of its quant sets. */
  predicate QuantsHeld(c: ComposeContext)
  {
    10 * c.numQuants as int <= |c.quants|
  }

  /** The context's quant sets, or the single default set when it has none. */
  function TilesetQuants(c: ComposeContext): (q: QuantSet)
    requires QuantsHeld(c)
    ensures q.numQuants >= 1 && 10 * q.numQuants as int <= |q.vals|
    ensures c.numQuants == 0 ==> q == QuantSet(1, DefaultQuants, 0, 0, 0)
    ensures c.numQuants > 0 ==> q == QuantSet(c.numQuants, c.quants, c.quantIdxY, c.quantIdxCb, c.quantIdxCr)
  {
    if c.numQuants == 0 then QuantSet(1, DefaultQuants, 0, 0, 0)
    else QuantSet(c.numQuants, c.quants, c.quantIdxY, c.quantIdxCb, c.quantIdxCr)
  }

  // -----------------------------------------------------------------------
  // The tile grid
  // -----------------------------------------------------------------------

  /** Tiles needed to span n pixels, 64 to a tile. */
  function TileCount(n: nat): (k: nat)
    ensures 64 * k >= n && (k > 0 ==> 64 * (k - 1) < n)
  {
    (n + 63) / 64
  }

  /** One call of the tile encoder: where the tile is, its size and the quant indices. */
  datatype TileJob = TileJob(xIdx: nat, yIdx: nat, width: int, height: int, pixelOffset: int,
                             quantIdxY: u8, quantIdxCb: u8, quantIdxCr: u8)

  /** What the tile encoder produces: the three encoded planes. */
  datatype EncodedTile = EncodedTile(y: Bytes, cb: Bytes, cr: Bytes)

  /** The size of the frame being encoded and how its pixels are laid out. */
  datatype Frame = Frame(width: nat, height: nat, rowstride: int)

  /**
   * The job for tile (xIdx, yIdx): tiles are 64 by 64, except that the
   * last column and the last row take what is left of the frame.
   */
  function TileJobAt(f: Frame, bpp: u8, q: QuantSet, xIdx: nat, yIdx: nat): TileJob
  {
    TileJob(xIdx, yIdx,
      if xIdx < TileCount(f.width) - 1 then 64 else f.width - xIdx * 64,
      if yIdx < TileCount(f.height) - 1 then 64 else f.height - yIdx * 64,
      yIdx * 64 * f.rowstride + xIdx * 8 * bpp as int,
      q.idxY, q.idxCb, q.idxCr)
  }

  /** The tile jobs in the order they are encoded: row by row, left to right. */
  function TileJobs(f: Frame, bpp: u8, q: QuantSet): (jobs: seq<TileJob>)
    ensures |jobs| == TileCount(f.width) * TileCount(f.height)
  {
    var nX := TileCount(f.width);
    seq(nX * TileCount(f.height), k requires 0 <= k < nX * TileCount(f.height) => TileJobAt(f, bpp, q, k % nX, k / nX))
  }

  // -----------------------------------------------------------------------
  // Tiles: written with placeholder lengths, then patched
  // -----------------------------------------------------------------------

  /** The quant indices and tile position, written after the tile's block header. */
  function TileFront(job: TileJob): seq<Field>
  {
    [F8(job.quantIdxY), F8(job.quantIdxCb), F8(job.quantIdxCr), F16(Trunc16(job.xIdx)), F16(Trunc16(job.yIdx))]
  }

  /** The YLen, CbLen and CrLen fields. */
  function Lens(y: u16, cb: u16, cr: u16): seq<Field>
  {
    [F16(y), F16(cb), F16(cr)]
  }

  /** A tile's header fields, with the given block length and plane length fields. */
  function TileHead(job: TileJob, blockLen: u32, lens: seq<Field>): seq<Field>
  {
    [F16(CBT_TILE)] + [F32(blockLen)] + TileFront(job) + lens
  }

  lemma {:induction false} FrontSize(job: TileJob)
    ensures |Emit(TileFront(job))| == 7
  {
    SizeByWidths(TileFront(job), [W8, W8, W8, W16, W16]);
  }

  lemma {:induction false} LensSize(y: u16, cb: u16, cr: u16)
    ensures |Emit(Lens(y, cb, cr))| == 6
  {
    SizeByWidths(Lens(y, cb, cr), [W16, W16, W16]);
  }

  /** The block length sits 2 bytes into a tile and the plane lengths 13 bytes. */
  lemma {:induction false} TileOffsets(job: TileJob, blockLen: u32)
    ensures |Emit([F16(CBT_TILE)])| == 2
    ensures |Emit([F16(CBT_TILE)] + [F32(blockLen)] + TileFront(job))| == 13
  {
    var a, b, c := [F16(CBT_TILE)], [F32(blockLen)], TileFront(job);
    OneField(F16(CBT_TILE));
    OneField(F32(blockLen));
    FrontSize(job);
    EmitConcat(a, b);
    EmitConcat(a + b, c);
  }

  function EncodedSize(e: EncodedTile): nat
  {
    |e.y| + |e.cb| + |e.cr|
  }

  /**
   * The first pass over a tile: the block length and the three plane
   * length fields are skipped, so they hold whatever the buffer held there
   * (the stale fields), and the encoded planes follow.
   */
  function TileFirstPass(job: TileJob, e: EncodedTile, staleLen: u32, stale: seq<Field>): (b: Bytes)
    requires Widths(stale) == [W16, W16, W16]
    ensures |b| == 19 + EncodedSize(e)
  {
    TileOffsets(job, staleLen);
    LensSize(0, 0, 0);
    SameWidthsSameSize(stale, Lens(0, 0, 0));
    EmitConcat([F16(CBT_TILE)] + [F32(staleLen)] + TileFront(job), stale);
    Emit(TileHead(job, staleLen, stale)) + (e.y + e.cb + e.cr)
  }

  /** The plane lengths as the encoder reports them, cut to 16 bits by the writes. */
  function PlaneLengths(e: EncodedTile): seq<Field>
  {
    Lens(Trunc16(|e.y|), Trunc16(|e.cb|), Trunc16(|e.cr|))
  }

  /**
   * The second pass: 19 plus the plane lengths at offset 2, then the three
   * plane lengths one after the other from offset 13.
   */
  function PatchTile(first: Bytes, e: EncodedTile): (b: Bytes)
    requires |first| >= 19
    ensures |b| == |first|
  {
    var len := FieldBytes(F32(Trunc32(19 + EncodedSize(e))));
    var lens := Emit(PlaneLengths(e));
    LensSize(Trunc16(|e.y|), Trunc16(|e.cb|), Trunc16(|e.cr|));
    Patch(Patch(first, 2, len), 13, lens)
  }

  /** The bytes of one tile as the composer leaves them; the skipped fields are taken as zero. */
  function TileBlock(job: TileJob, e: EncodedTile): (b: Bytes)
    ensures |b| == 19 + EncodedSize(e)
  {
    PatchTile(TileFirstPass(job, e, 0, Lens(0, 0, 0)), e)
  }

  /** The tile as if its lengths had been known up front. */
  function TileDirect(job: TileJob, e: EncodedTile): (b: Bytes)
    ensures |b| == 19 + EncodedSize(e)
  {
    TileFirstPass(job, e, Trunc32(19 + EncodedSize(e)), PlaneLengths(e))
  }

  /**
   * Whatever the skipped fields held, the patched tile is the tile with
   * its block length and plane lengths written in place.
   */
  lemma {:induction false} TilePatched(job: TileJob, e: EncodedTile, staleLen: u32, stale: seq<Field>)
    requires Widths(stale) == [W16, W16, W16]
    ensures PatchTile(TileFirstPass(job, e, staleLen, stale), e) == TileDirect(job, e)
  {
    var blockLen := Trunc32(19 + EncodedSize(e));
    var planes := e.y + e.cb + e.cr;
    var first := TileFirstPass(job, e, staleLen, stale);
    assert first == Emit(TileHead(job, staleLen, stale)) + planes;
    var second := Patch(first, 2, FieldBytes(F32(blockLen)));
    LensSize(Trunc16(|e.y|), Trunc16(|e.cb|), Trunc16(|e.cr|));
    assert PatchTile(first, e) == Patch(second, 13, Emit(PlaneLengths(e)));
    TileLengthPatch(job, staleLen, blockLen, stale, planes);
    assert second == Emit(TileHead(job, blockLen, stale)) + planes;
    TileLensPatch(job, blockLen, stale, PlaneLengths(e), planes);
  }

  lemma {:induction false} TileLengthPatch(job: TileJob, staleLen: u32, blockLen: u32, stale: seq<Field>, planes: Bytes)
    ensures 6 <= |Emit(TileHead(job, staleLen, stale)) + planes|
    ensures Patch(Emit(TileHead(job, staleLen, stale)) + planes, 2, FieldBytes(F32(blockLen))) ==
      Emit(TileHead(job, blockLen, stale)) + planes
  {
    TileOffsets(job, staleLen);
    OneField(F32(blockLen));
    PatchSecond([F16(CBT_TILE)], [F32(staleLen)], TileFront(job), stale, [F32(blockLen)], planes);
  }

  lemma {:induction false} TileLensPatch(job: TileJob, blockLen: u32, stale: seq<Field>, lens: seq<Field>, planes: Bytes)
    requires Widths(stale) == Widths(lens)
    ensures 13 + |Emit(lens)| <= |Emit(TileHead(job, blockLen, stale)) + planes|
    ensures Patch(Emit(TileHead(job, blockLen, stale)) + planes, 13, Emit(lens)) ==
      Emit(TileHead(job, blockLen, lens)) + planes
  {
    TileOffsets(job, blockLen);
    PatchFourth([F16(CBT_TILE)], [F32(blockLen)], TileFront(job), stale, lens, planes);
  }

  /** The tiles of a tileset, one after the other. */
  function TilesBytes(jobs: seq<TileJob>, encode: TileJob -> EncodedTile): (b: Bytes)
    ensures |b| == TilesSize(jobs, encode)
  {
    if |jobs| == 0 then [] else TileBlock(jobs[0], encode(jobs[0])) + TilesBytes(jobs[1..], encode)
  }

  function TilesSize(jobs: seq<TileJob>, encode: TileJob -> EncodedTile): nat
  {
    if |jobs| == 0 then 0 else 19 + EncodedSize(encode(jobs[0])) + TilesSize(jobs[1..], encode)
  }

  // -----------------------------------------------------------------------
  // Tileset
  // -----------------------------------------------------------------------

  /**
   * The tileset fields between the block length and the tiles data size:
   * the codec channel, subtype, idx, properties, numQuants, tileSize and
   * numTiles.
   */
  function TilesetMiddle(props: u16, numQuants: u8, numTiles: u16): seq<Field>
  {
    [F8(1), F8(0), F16(CBT_TILESET), F16(0), F16(props), F8(numQuants), F8(0x40), F16(numTiles)]
  }

  /** The 22 bytes of a tileset before its quant values. */
  function TilesetHead(props: u16, numQuants: u8, numTiles: u16, blockLen: u32, dataSize: u32): seq<Field>
  {
    [F16(WBT_EXTENSION)] + [F32(blockLen)] + TilesetMiddle(props, numQuants, numTiles) + [F32(dataSize)]
  }

  /** The block length sits 2 bytes into a tileset and the tiles data size 18 bytes. */
  lemma {:induction false} TilesetOffsets(props: u16, numQuants: u8, numTiles: u16, blockLen: u32)
    ensures |Emit([F16(WBT_EXTENSION)])| == 2
    ensures |Emit([F16(WBT_EXTENSION)] + [F32(blockLen)] + TilesetMiddle(props, numQuants, numTiles))| == 18
  {
    var a, b, c := [F16(WBT_EXTENSION)], [F32(blockLen)], TilesetMiddle(props, numQuants, numTiles);
    OneField(F16(WBT_EXTENSION));
    OneField(F32(blockLen));
    SizeByWidths(c, [W8, W8, W16, W16, W16, W8, W8, W16]);
    EmitConcat(a, b);
    EmitConcat(a + b, c);
  }

  lemma {:induction false} TilesetHeadSize(props: u16, numQuants: u8, numTiles: u16, blockLen: u32, dataSize: u32)
    ensures |Emit(TilesetHead(props, numQuants, numTiles, blockLen, dataSize))| == 22
  {
    TilesetOffsets(props, numQuants, numTiles, blockLen);
    OneField(F32(dataSize));
    EmitConcat([F16(WBT_EXTENSION)] + [F32(blockLen)] + TilesetMiddle(props, numQuants, numTiles), [F32(dataSize)]);
  }

  /** A list of byte fields takes one byte each. */
  lemma {:induction false} AllBytes(fs: seq<Field>)
    requires forall k :: 0 <= k < |fs| ==> fs[k].F8?
    ensures |Emit(fs)| == |fs|
    decreases |fs|
  {
    if |fs| > 0 {
      AllBytes(fs[1..]);
    }
  }

  /** The packed quant values of a quant set: five bytes per set. */
  function QuantBytes(q: QuantSet): (b: Bytes)
    requires 10 * q.numQuants as int <= |q.vals|
    ensures |b| == 5 * q.numQuants as int
  {
    AllBytes(QuantFields(q.vals, 5 * q.numQuants as nat));
    Emit(QuantFields(q.vals, 5 * q.numQuants as nat))
  }

  /** What a tileset is built from. */
  datatype TilesetInput = TilesetInput(props: u16, q: QuantSet, jobs: seq<TileJob>, encode: TileJob -> EncodedTile)

  predicate TilesetInputOk(t: TilesetInput)
  {
    10 * t.q.numQuants as int <= |t.q.vals|
  }

  /** The first pass over a tileset: the block length and tiles data size are skipped. */
  function TilesetFirstPass(t: TilesetInput, staleLen: u32, staleSize: u32): (b: Bytes)
    requires TilesetInputOk(t)
    ensures |b| == 22 + 5 * t.q.numQuants as int + TilesSize(t.jobs, t.encode)
  {
    TilesetHeadSize(t.props, t.q.numQuants, Trunc16(|t.jobs|), staleLen, staleSize);
    Emit(TilesetHead(t.props, t.q.numQuants, Trunc16(|t.jobs|), staleLen, staleSize)) +
      (QuantBytes(t.q) + TilesBytes(t.jobs, t.encode))
  }

  /** The second pass: the block length at offset 2 and the tiles data size at offset 18. */
  function PatchTileset(first: Bytes, t: TilesetInput): (b: Bytes)
    requires |first| >= 22
    ensures |b| == |first|
  {
    var dataSize := TilesSize(t.jobs, t.encode);
    var len := FieldBytes(F32(Trunc32(22 + 5 * t.q.numQuants as int + dataSize)));
    var size := FieldBytes(F32(Trunc32(dataSize)));
    Patch(Patch(first, 2, len), 18, size)
  }

  /** The tileset bytes the composer leaves; the skipped fields are taken as zero. */
  function TilesetBlock(t: TilesetInput): (b: Bytes)
    requires TilesetInputOk(t)
    ensures |b| == 22 + 5 * t.q.numQuants as int + TilesSize(t.jobs, t.encode)
  {
    PatchTileset(TilesetFirstPass(t, 0, 0), t)
  }

  /** The tileset as if its sizes had been known up front. */
  function TilesetDirect(t: TilesetInput): (b: Bytes)
    requires TilesetInputOk(t)
    ensures |b| == 22 + 5 * t.q.numQuants as int + TilesSize(t.jobs, t.encode)
  {
    var dataSize := TilesSize(t.jobs, t.encode);
    TilesetFirstPass(t, Trunc32(22 + 5 * t.q.numQuants as int + dataSize), Trunc32(dataSize))
  }

  /** Whatever the skipped fields held, the patched tileset is the tileset with its sizes in place. */
  lemma {:induction false} TilesetPatched(t: TilesetInput, staleLen: u32, staleSize: u32)
    requires TilesetInputOk(t)
    ensures PatchTileset(TilesetFirstPass(t, staleLen, staleSize), t) == TilesetDirect(t)
  {
    var dataSize := TilesSize(t.jobs, t.encode);
    var blockLen := Trunc32(22 + 5 * t.q.numQuants as int + dataSize);
    var rest := QuantBytes(t.q) + TilesBytes(t.jobs, t.encode);
    TilesetHeadPatched(t.props, t.q.numQuants, Trunc16(|t.jobs|), staleLen, staleSize, blockLen, Trunc32(dataSize), rest);
  }

  /** Both patches of a tileset, over whatever follows its head. */
  lemma {:induction false} TilesetHeadPatched(props: u16, nq: u8, nt: u16, staleLen: u32, staleSize: u32, blockLen: u32, size: u32, rest: Bytes)
    ensures 22 <= |Emit(TilesetHead(props, nq, nt, staleLen, staleSize)) + rest|
    ensures |Patch(Emit(TilesetHead(props, nq, nt, staleLen, staleSize)) + rest, 2, FieldBytes(F32(blockLen)))| >= 22
    ensures Patch(Patch(Emit(TilesetHead(props, nq, nt, staleLen, staleSize)) + rest, 2, FieldBytes(F32(blockLen))), 18, FieldBytes(F32(size))) ==
      Emit(TilesetHead(props, nq, nt, blockLen, size)) + rest
  {
    TilesetLengthPatch(props, nq, nt, staleLen, blockLen, staleSize, rest);
    TilesetSizePatch(props, nq, nt, blockLen, staleSize, size, rest);
  }

  lemma {:induction false} TilesetLengthPatch(props: u16, nq: u8, nt: u16, staleLen: u32, blockLen: u32, size: u32, rest: Bytes)
    ensures 6 <= |Emit(TilesetHead(props, nq, nt, staleLen, size)) + rest|
    ensures Patch(Emit(TilesetHead(props, nq, nt, staleLen, size)) + rest, 2, FieldBytes(F32(blockLen))) ==
      Emit(TilesetHead(props, nq, nt, blockLen, size)) + rest
  {
    TilesetOffsets(props, nq, nt, staleLen);
    OneField(F32(blockLen));
    PatchSecond([F16(WBT_EXTENSION)], [F32(staleLen)], TilesetMiddle(props, nq, nt), [F32(size)], [F32(blockLen)], rest);
  }

  lemma {:induction false} TilesetSizePatch(props: u16, nq: u8, nt: u16, blockLen: u32, staleSize: u32, size: u32, rest: Bytes)
    ensures 22 <= |Emit(TilesetHead(props, nq, nt, blockLen, staleSize)) + rest|
    ensures Patch(Emit(TilesetHead(props, nq, nt, blockLen, staleSize)) + rest, 18, FieldBytes(F32(size))) ==
      Emit(TilesetHead(props, nq, nt, blockLen, size)) + rest
  {
    TilesetOffsets(props, nq, nt, blockLen);
    OneField(F32(size));
    PatchFourth([F16(WBT_EXTENSION)], [F32(blockLen)], TilesetMiddle(props, nq, nt), [F32(staleSize)], [F32(size)], rest);
  }

  // -----------------------------------------------------------------------
  // Messages
  // -----------------------------------------------------------------------

  /** rfx_compose_message_header: sync, context, codec versions, channels. */
  function ComposeHeader(c: ComposeContext): (r: (Bytes, ComposeContext))
    ensures |r.0| == 12 + 13 + 10 + 12
    ensures r.1 == c.(properties := TilesetProperties(c), headerProcessed := true)
  {
    (SyncBlock() + ContextBlock(c) + CodecVersionsBlock() + ChannelsBlock(c),
     c.(properties := TilesetProperties(c), headerProcessed := true))
  }

  /** The tileset a frame of this size gets from this context. */
  function FrameTileset(c: ComposeContext, f: Frame, encode: TileJob -> EncodedTile): (t: TilesetInput)
    requires QuantsHeld(c)
    ensures TilesetInputOk(t)
  {
    var q := TilesetQuants(c);
    TilesetInput(c.properties, q, TileJobs(f, c.bitsPerPixel, q), encode)
  }

  /** rfx_compose_message_data: frame begin, region, tileset, frame end; the frame index moves on. */
  function ComposeData(c: ComposeContext, rects: seq<RfxRect>, f: Frame, encode: TileJob -> EncodedTile): (r: (Bytes, ComposeContext))
    requires QuantsHeld(c)
    ensures r.1 == c.(frameIdx := Trunc32(c.frameIdx as int + 1))
  {
    var c' := c.(frameIdx := Trunc32(c.frameIdx as int + 1));
    (FrameBeginBlock(c) + RegionBlock(rects) + TilesetBlock(FrameTileset(c', f, encode)) + FrameEndBlock(), c')
  }

  /** The header goes out with the first frame of a stream only. */
  predicate SendsHeader(c: ComposeContext)
  {
    c.frameIdx == 0 && !c.headerProcessed
  }

  /** The context after composing a message: the header is marked sent and the frame index moves on. */
  function NextContext(c: ComposeContext): (r: ComposeContext)
    ensures r.frameIdx == Trunc32(c.frameIdx as int + 1)
    ensures r.headerProcessed == (c.headerProcessed || c.frameIdx == 0)
    ensures r.numQuants == c.numQuants && r.quants == c.quants
  {
    var c1 := if SendsHeader(c) then ComposeHeader(c).1 else c;
    c1.(frameIdx := Trunc32(c.frameIdx as int + 1))
  }

  /** The bytes of a message: the header if it is due, then the frame. */
  function MessageBytes(c: ComposeContext, rects: seq<RfxRect>, f: Frame, encode: TileJob -> EncodedTile): Bytes
    requires QuantsHeld(c)
  {
    if SendsHeader(c) then
      var c1 := ComposeHeader(c).1;
      ComposeHeader(c).0 + ComposeData(c1, rects, f, encode).0
    else
      ComposeData(c, rects, f, encode).0
  }

  /** rfx_compose_message: the message bytes and the context they leave behind. */
  function ComposeMessage(c: ComposeContext, rects: seq<RfxRect>, f: Frame, encode: TileJob -> EncodedTile): (r: (Bytes, ComposeContext))
    requires QuantsHeld(c)
    ensures r.1.frameIdx == Trunc32(c.frameIdx as int + 1)
    ensures r.1.headerProcessed == (c.headerProcessed || c.frameIdx == 0)
  {
    (MessageBytes(c, rects, f, encode), NextContext(c))
  }
}
