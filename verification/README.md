# FreeRDP RemoteFX, region and CVT core, modelled in Dafny

This project models the sequential logic at the core of a FreeRDP fork
whose RemoteFX path can hand tiles to a hardware decoder (the "CVT"
platform, driven through ioctls).
It covers six pieces:

- **Region algebra** (`libfreerdp-utils/region.c`). A region is a banded,
  sorted list of half-open boxes plus an extents box. Union and intersection
  walk the bands of both operands, merge boxes within a band and coalesce
  equal bands. The model proves that each result covers exactly the union or
  intersection of the operands' points, stays banded, and has tight extents.
- **RemoteFX decoding** (`rfx_utils.c`, `rfx_platform_default.c`). The
  block parsers of [MS-RDPRFX] section 2.2.2 read fixed little-endian
  layouts from a byte sequence and a cursor. The block walk moves the cursor
  to each block's declared end.
- **RemoteFX composing** (`rfx_compose.c`). This is the byte-exact writer of
  the same blocks: two-pass length patching, nibble packing of the quant
  values, the tile grid, and the once-only header. Its output reads back
  through the parsers.
- **Hardware tile geometry** (`rfx_platform_cvt.c`). This takes the tiles of
  a tileset to the rect lists handed to the driver:
  - overlap and containment tests;
  - clip lists;
  - the display a frame is decoded for;
  - horizontal and vertical tile merging;
  - the nibble-swapped hardware quant table.

  In the RDVH_OPT mode, each display keeps two tables of clipped tiles and
  alternates between them. The previous frame's entries that the current
  frame does not draw again are merged into copy rects. These tables are
  explicit state (`CvtOpt.OptState`).
- **Client decisions** (`client/X11/xf_platform_cvt.c`). These are the
  direct-blit target, the operation mode, the option parser and the monitor
  geometry.
- **USB device list** (`libusb_udevman.c`). This is a doubly linked list of
  devices, modelled as a heap map with head, tail and count. It supports
  register, unregister, iteration, lookup, `bus_dev` parsing, and the
  numbering of devices at start-up.

The project has these modules:
- `Common`: integer widths, `Option`, little-endian fields, `atoi`.
- `RfxWire`: block constants and field emission.
- `RfxParse`, `RfxDecode`, `RfxCompose`, `RfxRoundTrip`: the RemoteFX pieces.
- `RfxCursor`, `RfxCursorWalk`, `RfxCursorTiles`: the source's 32-bit `int` cursor, and the decoder's message and tile loops with it, against the walks of `RfxDecode`.
- `Region`, `RegionRows`, `RegionBands`, `RegionWalk`, `RegionSound`: the region algebra.
- `CvtLayout`, `CvtGeometry`, `CvtMerge`, `CvtTileset`, `CvtOpt`: the hardware tile geometry.
- `XfCvt`: the client decisions.
- `UsbDevMan`: the USB device list.
- `UsbDevManEntry`: the "bus_dev" token parsing and the start-up registration loop.

The model replaces these with parameters:
- The screen size, the monitor layout and the previous frame's tables are
  inputs.
- Device creation in the USB manager is an outcome (`made`).
- The entropy encoder is a function that returns three plane lengths and
  their bytes.
- The contents of uninitialised memory are arbitrary arguments: the rects a
  fresh buffer held (`stale`) and the five bytes after the quant table
  (`beyond`).

Where the source reads a stream without a bounds check, the model's reads
are bounds-checked: a read past the end makes the handler fail, and the
block walk stops there. The walks of `RfxDecode` keep the block cursor as
an unbounded number; `RfxCursor` models the wrapping `int` the source
keeps it in.

## Model

| member | source | states |
|---|---|---|
| RegionSound.InitRectSound | libfreerdp-utils/region.c:614-636 | A rect whose edges fit in 16 bits becomes a valid region that covers exactly the pixels of the rect. |
| RegionSound.SetExtentsHull | libfreerdp-utils/region.c:204-235 | The recomputed extents of a banded, non-empty box list are exactly its hull: the least box that holds every box. |
| RegionSound.InsideExtents | libfreerdp-utils/region.c:204-235 | Every point a valid region covers lies inside its extents. |
| RegionSound.ContainsCovers | libfreerdp-utils/region.c:110-121 | A single-box region whose box encloses the other region's extents covers every point of the other region. This is why the union fast path may return that operand. |
| RegionSound.UnionSound | libfreerdp-utils/region.c:677-717 | For operands whose box edges lie in 0..32767 (`FitsSint16`), whichever fast path is taken (an empty operand, the same object, or a containing single box), the union is valid and covers exactly the points of either operand. |
| RegionSound.UnionWalkSound | libfreerdp-utils/region.c:709-716 | For operands whose box edges lie in 0..32767, the general union, a band walk with extents joined componentwise, is valid and covers exactly the points of either operand. |
| RegionSound.UnionRectSound | libfreerdp-utils/region.c:725-739 | union_rect succeeds exactly when the rect has non-zero width and height. On failure the destination is returned unchanged. On success, when the rect's edges and the source's lie within 32767, the result is valid and covers the rect's pixels and the source's points, and nothing else. |
| RegionSound.DisjointExtents | libfreerdp-utils/region.c:40-44 | Regions whose extents do not strictly overlap share no point, so edge-touching counts as disjoint. |
| RegionSound.IntersectSound | libfreerdp-utils/region.c:747-760 | For operands whose box edges lie in 0..32767, intersect reports success exactly when both operands are non-empty and their extents overlap. Failure leaves no boxes. The result is valid and covers exactly the common points. |
| RegionSound.OpSound | libfreerdp-utils/region.c:264-439 | For operands whose box edges lie in 0..32767, the box list of rdp_region_op is banded. It covers a point exactly when the operation (or, and) of the operands' coverage holds there. |
| RegionWalk.StepCovers | libfreerdp-utils/region.c:312-381 | One turn of the band walk moves exactly the points between the old and the new scan line into the output. Points already emitted, plus points still to come, are conserved. |
| RegionWalk.StepInv | libfreerdp-utils/region.c:312-381 | One turn keeps the walk invariant: the output is banded and lies above the scan line, and both cursors stay on band starts. |
| RegionWalk.LoopSound | libfreerdp-utils/region.c:312-381 | The whole do-while loop keeps the invariant and the covered points. |
| Region.OpLoop | libfreerdp-utils/region.c:312-381 | The walk ends only when one operand's bands are used up. |
| Region.OpStep | libfreerdp-utils/region.c:312-381 | Each turn advances at least one operand's cursor, and neither cursor passes the end of its operand. |
| Region.BandEnd | libfreerdp-utils/region.c:316-326 | The band starting at i is the longest run from i sharing its top edge; the next box starts a different band. |
| Region.InitRect | libfreerdp-utils/region.c:614-636 | rdp_region_init_rect: a rect of zero width or height gives the empty region, any other the region of its one box. RegionSound.InitRectSound proves the result valid and exact. |
| Region.SetExtents | libfreerdp-utils/region.c:204-235 | rdp_region_set_extents: the zero box for no boxes, else the left-most x1, right-most x2, first y1 and last y2. RegionSound.SetExtentsHull proves this is the hull of a banded list. |
| Region.Merge | libfreerdp-utils/region.c:238-262 | rdp_region_merge: widen the last box of the current row or append the span. RegionRows.MergeStep and RegionRows.MergeWiden state what it adds. |
| Region.Combine | libfreerdp-utils/region.c:123-199 | rdp_region_combine: when the current band has as many boxes as the band above, starts where it ends and has the same columns, the band above is stretched over it and it is removed. RegionBands.CombineSound and RegionBands.CombineMerged state the result. |
| Region.Op | libfreerdp-utils/region.c:264-439 | rdp_region_op: the band walk over both operands, then the remaining bands of the longer one. RegionSound.OpSound states its result. |
| Region.Union | libfreerdp-utils/region.c:677-717 | rdp_region_union: the fast paths, then the band walk with the joined extents. RegionSound.UnionSound states its result. |
| Region.UnionRect | libfreerdp-utils/region.c:725-739 | rdp_region_union_rect: refuses an empty rect, else the union with the rect's region. RegionSound.UnionRectSound states its result. |
| Region.Intersect | libfreerdp-utils/region.c:747-760 | rdp_region_intersect: refuses an empty operand or disjoint extents, else the band walk's boxes with recomputed extents. RegionSound.IntersectSound states its result. |
| RegionRows.MergeStep | libfreerdp-utils/region.c:238-262 | merge keeps a row strictly sorted and non-touching. It adds exactly the new span's columns to the row. |
| RegionRows.MergeWiden | libfreerdp-utils/region.c:240-249 | When the new span overlaps or touches the last box, that box is widened rather than a box appended, and the covered columns are the union. |
| RegionRows.UnionOverlapRow | libfreerdp-utils/region.c:462-496 | union_overlap produces a strict row covering exactly the columns of the row so far and of both bands. |
| RegionRows.IntersectRowShape | libfreerdp-utils/region.c:498-537 | intersect_overlap emits boxes in one row, each with x1 < x2, sorted by x1. |
| RegionRows.IntersectRowCovers | libfreerdp-utils/region.c:498-537 | A column is in the intersection row exactly when both bands cover it. |
| RegionRows.OverlapSound | libfreerdp-utils/region.c:462-537 | Below the output, the overlap callback appends one row whose columns are the union (or intersection) of the two bands' columns. |
| RegionBands.NonOverlapRow | libfreerdp-utils/region.c:441-460 | union_non_overlap re-emits a band's columns unchanged at the new rows. |
| RegionBands.CombineSound | libfreerdp-utils/region.c:123-199 | Combining a band with the one before it keeps the list banded. It covers the same points, never lengthens the list and keeps the bottom edge. A merge removes exactly the current band's boxes; when the bands do not merge the list is unchanged. |
| RegionBands.CombineMerged | libfreerdp-utils/region.c:123-199 | When the two bands have equal box counts, identical x-spans and touch vertically, the list loses the current band's boxes: the boxes before the previous band are kept, each box of the previous band takes the bottom edge of the box above it in the current band, and the boxes after the current band move down by the band's size. |
| RegionBands.StretchCovers | libfreerdp-utils/region.c:180-199 | Stretching the previous band over the current one covers exactly the points of both. |
| RfxParse.BitsPerPixel | libfreerdp-codec/rfx_utils.c:28-56 | A known pixel format maps to 32, 24, 16, 8 or 4 bits; an unknown one maps to 0. |
| RfxParse.BitsPerPixelIsChannelSum | libfreerdp-codec/rfx_utils.c:28-56 | Each format's bits per pixel is the sum of its channel widths. |
| RfxParse.ParseSync | libfreerdp-codec/rfx_utils.c:58-63 | The sync body reads exactly when 6 bytes are left, and consumes 6. |
| RfxParse.SyncRoundTrip | libfreerdp-codec/rfx_utils.c:58-63 | A written sync body, wherever it sits, reads back as its magic and version. |
| RfxParse.ParseCodecVersionsAsWritten | libfreerdp-codec/rfx_utils.c:65-71 | As written, the version is read with a one-byte read: 3 bytes are consumed and the version is below 0x100. |
| RfxParse.CodecVersionsAsWrittenLosesVersion | libfreerdp-codec/rfx_utils.c:70 | A conforming body with version 1.0 reads back as version 0 under the as-written parser. |
| RfxParse.ParseCodecVersions | libfreerdp-codec/rfx_utils.c:65-71 | The corrected parser consumes the 4 bytes of the field layout. |
| RfxParse.CodecVersionsRoundTrip | libfreerdp-codec/rfx_utils.c:65-71 | A written codec-versions body reads back under the corrected parser. |
| RfxParse.ParseContext | libfreerdp-codec/rfx_utils.c:110-115 | A context body reads exactly when 5 bytes are left, and consumes 5. |
| RfxParse.ContextRoundTrip | libfreerdp-codec/rfx_utils.c:110-115 | A written context body (id, tile size, properties) reads back, consuming 5 bytes. |
| RfxParse.ParseFrameBegin | libfreerdp-codec/rfx_utils.c:117-121 | A frame-begin body reads exactly when 6 bytes are left, and consumes 6. |
| RfxParse.FrameBeginRoundTrip | libfreerdp-codec/rfx_utils.c:117-121 | A written frame-begin body reads back, consuming 6 bytes. |
| RfxParse.ParseTile | libfreerdp-codec/rfx_utils.c:154-168 | A tile body reads exactly when 13 bytes are left, and consumes 13. |
| RfxParse.TileRoundTrip | libfreerdp-codec/rfx_utils.c:154-168 | A written tile body reads back as its quant indices, position and three plane lengths, in that order. |
| RfxParse.ParseChannels | libfreerdp-codec/rfx_utils.c:73-108 | A zero count keeps the caller's channel list and count. Otherwise the count is set and each channel takes 5 bytes. It fails exactly when the bytes run out. |
| RfxParse.ChannelsRoundTrip | libfreerdp-codec/rfx_utils.c:73-108 | A count byte followed by written channels reads back as the channels. |
| RfxParse.ParseRegion | libfreerdp-codec/rfx_utils.c:123-152 | A zero count keeps the caller's rects. Otherwise rect i is read at body offset 3 + 8i. It fails exactly when the bytes run out. |
| RfxParse.RegionRoundTrip | libfreerdp-codec/rfx_utils.c:123-152 | A region body with a count and written rects reads back as the rects. |
| RfxParse.ExpandQuants | libfreerdp-codec/rfx_utils.c:215-241 | Each quant byte expands to its low nibble, then its high nibble. |
| RfxParse.ExpandedQuantsAreNibbles | libfreerdp-codec/rfx_utils.c:215-241 | Every expanded quant value is below 16. |
| RfxParse.ParseTileset | libfreerdp-codec/rfx_utils.c:170-244 | A wrong subtype, numQuants 0 or numTiles 0 returns the incoming quant table. The counts read before the failing check are written back. Otherwise the quants expand to 10 values per set. |
| RfxParse.RectListReads | libfreerdp-codec/rfx_utils.c:123-152 | n rects read at p depend only on the 8n bytes from p. |
| RfxParse.ChannelListReads | libfreerdp-codec/rfx_utils.c:73-108 | n channels read at p depend only on the 5n bytes from p. |
| RfxParse.TilesetReads | libfreerdp-codec/rfx_utils.c:170-244 | The tileset body read at p depends only on the bytes from p on. |
| RfxDecode.NewContext | libfreerdp-codec/rfx_platform_default.c:379-417 | A new decoder context is zeroed, with 32-bit BGRA and the RLGR1 mode. |
| RfxDecode.NewMessage | libfreerdp-codec/rfx_platform_default.c:434-440 | A new message has no rects and no tiles. |
| RfxDecode.SetPixelFormat | libfreerdp-codec/rfx_platform_default.c:95-101 | Setting the pixel format sets it together with its bits per pixel, and nothing else. |
| RfxDecode.ProcessSync | libfreerdp-codec/rfx_platform_default.c:115-134 | The wire version is stored whatever it is: the checks of the magic and the version only log. |
| RfxDecode.ProcessCodecVersions | libfreerdp-codec/rfx_utils.c:65-71 | The handler as written succeeds exactly when 3 bytes remain: the codec id is the second byte and the version is the third byte alone. Nothing else in the context changes. |
| RfxDecode.ProcessCodecVersionsCorrected | libfreerdp-codec/rfx_utils.c:65-71 | The corrected handler needs 4 bytes and takes the version from the two little-endian bytes after the codec id. Nothing else in the context changes. |
| RfxDecode.ProcessChannels | libfreerdp-codec/rfx_platform_default.c:151-170 | With at least one channel, the context takes channel 0's width and height. With none, the context is unchanged. |
| RfxDecode.PropertiesFlags | libfreerdp-codec/rfx_platform_default.c:182 | `properties & 7` is below 8. |
| RfxDecode.ProcessContext | libfreerdp-codec/rfx_platform_default.c:172-205 | The flags become the low three property bits. The mode becomes RLGR1 or RLGR3 when bits 9-12 name one, and stays as it was otherwise. |
| RfxDecode.ProcessFrameBegin | libfreerdp-codec/rfx_platform_default.c:207-215 | Frame begin reads 6 bytes and changes nothing. |
| RfxDecode.ProcessRegion | libfreerdp-codec/rfx_platform_default.c:222-226 | The message takes the parsed rects; a zero count keeps the previous ones. |
| RfxDecode.ProcessTiles | libfreerdp-codec/rfx_platform_default.c:228-286 | The slots before i and the slot count are kept. When every slot was placed, every slot is still placed: at (64·xIdx, 64·yIdx) cut to 16 bits. Slots are filled in order from i, with no empty slot before a filled one. |
| RfxDecode.TileWalk | libfreerdp-codec/rfx_platform_default.c:266-285 | The tile loop with an unbounded cursor. Its shape is stated by RfxDecode.TileWalkShape and its contents by RfxDecode.ProcessTilesReadsChain. RfxCursorTiles.TileWalkAsWrittenAgrees ties it to the loop as written. |
| RfxDecode.TileWalkShape | libfreerdp-codec/rfx_platform_default.c:266-285 | The tile loop keeps the slots before i and the slot count, places every tile it fills at 64 times its indices, and fills the slots in order. |
| RfxDecode.DecodedTile | libfreerdp-codec/rfx_platform_default.c:228-252 | The tile decoded from a CBT_TILE block at q holds the 13 tile fields read at q + 6, sits at (64·xIdx, 64·yIdx) cut to 16 bits, and has its data 19 bytes in. |
| RfxDecode.ProcessTilesFollowsChain | libfreerdp-codec/rfx_platform_default.c:266-285 | Over a run of CBT_TILE blocks, each starting at the previous start plus its declared blockLen, the tile walk fills one slot per block with that block's tile, in order. It then carries on at the run's end, whatever the tiles themselves took up. |
| RfxDecode.ProcessTilesReadsChain | libfreerdp-codec/rfx_platform_default.c:266-285 | For such a run from slot i, slot i + k holds block k's tile whenever the walk succeeds. When the run fills the last slot, or a block that is not CBT_TILE follows it, the walk succeeds and every slot outside the run keeps its value. |
| RfxDecode.ProcessTileset | libfreerdp-codec/rfx_platform_default.c:254-287 | numQuants, the quant table and numTiles are the ones the tileset parser reads. The slots are what the tile walk leaves in numTiles empty slots, starting at the end of the quant values. The handler fails exactly when the parse or the tile walk does, and nothing else changes. |
| RfxDecode.TilesetReadsChain | libfreerdp-codec/rfx_platform_default.c:254-287 | When the tiles after the quant values are a run of CBT_TILE blocks, one per announced tile or followed by a block that is not a tile, the message holds the run's tiles in order and empty slots after them. |
| RfxDecode.Dispatch | libfreerdp-codec/rfx_platform_default.c:321-366 | Unknown block types and frame end change nothing. Only region and tileset blocks touch the message. |
| RfxDecode.WalkStops | libfreerdp-codec/rfx_platform_default.c:305-317 | With 6 bytes or fewer left, or a zero block length, the walk ends with nothing changed. |
| RfxDecode.WalkSkipsUnknown | libfreerdp-codec/rfx_platform_default.c:305-368 | A block of unknown type moves the cursor to its declared end and changes nothing else. The cursor is unbounded here; the source's agrees while the end stays below 2^31 (see Left out). |
| RfxDecode.Walk | libfreerdp-codec/rfx_platform_default.c:305-369 | The block walk never changes the destination rect or the pixel format, and keeps one tile slot per announced tile. |
| RfxDecode.DispatchReadsSpan | libfreerdp-codec/rfx_platform_default.c:321-366 | Every handler but the tileset's reads only the bytes from its body start to the end of its span: 6 bytes for sync and frame begin, 3 for codec versions, 5 for context, the count byte plus 5 bytes per channel, and the flags and count plus 8 bytes per rect. |
| RfxDecode.DispatchReads | libfreerdp-codec/rfx_platform_default.c:321-366 | Every handler, the tileset's included, reads only bytes from its body start on. |
| RfxDecode.WalkReads | libfreerdp-codec/rfx_platform_default.c:305-369 | The walk from a cursor reads only bytes from the cursor on: two buffers that agree from there give the same result. Stated for the unbounded cursor (see Left out). |
| RfxDecode.WalkSkipsUnread | libfreerdp-codec/rfx_platform_default.c:319-368 | The walk resynchronises at the block start plus blockLen: bytes of a block that its handler does not read, up to the declared end, do not change the result. Stated for the unbounded cursor (see Left out). |
| RfxDecode.WalkSkipsPadding | libfreerdp-codec/rfx_platform_default.c:319-368 | For every block but a tileset, the bytes between the end of the handler's span and the block's declared end can be anything. |
| RfxDecode.ProcessMessage | libfreerdp-codec/rfx_platform_default.c:289-375 | The message carries the destination rect and one slot per tile, and the pixel format is untouched. |
| RfxCursor.WrapCursor | libfreerdp-codec/rfx_platform_default.c:319 | The cursor the source stores lies in -2^31..2^31-1 and has the same 32 low bits as the block end; an end already in that range is kept. |
| RfxCursorWalk.WalkAsWritten | libfreerdp-codec/rfx_platform_default.c:305-368 | The message loop with the 32-bit cursor, for a bounded number of blocks. When it finishes, the destination rect and the pixel format are unchanged. |
| RfxCursorWalk.WalkAsWrittenAgrees | libfreerdp-codec/rfx_platform_default.c:305-368 | When every block end the walk moves to is below 2^31, the loop as written finishes, with what RfxDecode.Walk gives. |
| RfxCursorWalk.WalkAsWrittenLoops | libfreerdp-codec/rfx_platform_default.c:319 | On a 17-byte message whose second block length brings the cursor back to 0, the loop as written never finishes, while RfxDecode.Walk stops with nothing changed. |
| RfxCursorWalk.WalkAsWrittenUnderruns | libfreerdp-codec/rfx_platform_default.c:319 | On a 7-byte message whose block length stores the cursor as -16, the loop as written reads its next header before the data. |
| RfxCursorTiles.TileWalkAsWritten | libfreerdp-codec/rfx_platform_default.c:266-285 | The tile loop with the 32-bit cursor; a negative cursor reads before the data. Related to RfxDecode.TileWalk by RfxCursorTiles.TileWalkAsWrittenAgrees. |
| RfxCursorTiles.TileWalkAsWrittenAgrees | libfreerdp-codec/rfx_platform_default.c:266-285 | On data shorter than 2^31 bytes, wherever RfxDecode.TileWalk succeeds, the tile loop as written fills the same slots. |
| RfxCursorTiles.TileWalkAsWrittenRereads | libfreerdp-codec/rfx_platform_default.c:275-285 | Two tile blocks whose second length brings the cursor back to 0: with three slots, the loop as written fills the third with the first tile again, where RfxDecode.TileWalk fails. |
| RfxCompose.ComposeReset | libfreerdp-codec/rfx_compose.c:123-128 | Reset clears the frame index and the header flag, and nothing else. |
| RfxCompose.NewComposeContext | libfreerdp-codec/rfx_compose.c:425-461 | A new composer starts at frame 0 with the header due, no quants, and 32-bit BGRA. |
| RfxCompose.ComposeSetPixelFormat | libfreerdp-codec/rfx_compose.c:92-121 | The composer's bits per pixel agree with the decoder's table. |
| RfxCompose.SyncBlock | libfreerdp-codec/rfx_compose.c:154-160 | The sync block is 12 bytes of type WBT_SYNC, and its length field holds 12. |
| RfxCompose.SyncBlockReads | libfreerdp-codec/rfx_compose.c:154-160 | The 12-byte sync block reads back as the magic number and version 1.0. |
| RfxCompose.CodecVersionsBlockReads | libfreerdp-codec/rfx_compose.c:162-169 | The 10-byte codec-versions block reads back as one codec, id 1, version 1.0. |
| RfxCompose.ChannelsBlockReads | libfreerdp-codec/rfx_compose.c:171-179 | The 12-byte channels block reads back as one channel of the context's size. |
| RfxCompose.ContextProperties | libfreerdp-codec/rfx_compose.c:193-198 | The context properties put the flags in bits 0-2 and the entropy id in bits 9-12, next to the fixed colour-conversion, transform and quantisation bits. |
| RfxCompose.ContextBlock | libfreerdp-codec/rfx_compose.c:181-208 | The context block is 13 bytes of type WBT_CONTEXT, and its length field holds 13. |
| RfxCompose.ContextBlockReads | libfreerdp-codec/rfx_compose.c:181-208 | The 13-byte context block reads back as the body written. |
| RfxCompose.FrameBeginBlockReads | libfreerdp-codec/rfx_compose.c:210-222 | The 14-byte frame-begin block reads back as the frame index and one region. |
| RfxCompose.FrameEndBlock | libfreerdp-codec/rfx_compose.c:383-391 | Frame end is an 8-byte block whose length field holds 8. |
| RfxCompose.RegionBlock | libfreerdp-codec/rfx_compose.c:224-250 | The region block is 15 + 8n bytes, and its length field holds that. |
| RfxCompose.RegionBlockReads | libfreerdp-codec/rfx_compose.c:224-250 | The region block reads back as its rects in order, as many as the 16-bit count field holds. |
| RfxCompose.TilesetQuants | libfreerdp-codec/rfx_compose.c:313-320 | Without quant sets, the single default set of ten values is used. |
| RfxCompose.TileCount | libfreerdp-codec/rfx_compose.c:330-331 | The tile count is ceil(n / 64). |
| RfxCompose.TileJobs | libfreerdp-codec/rfx_compose.c:330-370 | There is one tile job per grid cell, so numTiles = ceil(w/64)·ceil(h/64). |
| RfxCompose.TileBlock | libfreerdp-codec/rfx_compose.c:252-292 | A tile block is 19 bytes plus the encoded plane lengths. |
| RfxCompose.TilesetBlock | libfreerdp-codec/rfx_compose.c:294-381 | A tileset block is 22 bytes, plus 5 per quant set, plus the tile blocks. |
| RfxCompose.TilePatched | libfreerdp-codec/rfx_compose.c:252-292 | Whatever the skipped fields held, the patched tile equals the tile written with blockLen = 19 + the plane lengths, and the three lengths at offset 13. |
| RfxCompose.TilesetPatched | libfreerdp-codec/rfx_compose.c:294-381 | Whatever the skipped fields held, the patched tileset has blockLen = 22 + 5·numQuants + tilesDataSize at offset 2, and the data size at offset 18. |
| RfxCompose.ComposeHeader | libfreerdp-codec/rfx_compose.c:403-413 | The header is sync, context, codec versions and channels (47 bytes), and it marks the header sent. |
| RfxCompose.ComposeData | libfreerdp-codec/rfx_compose.c:393-400 | A frame advances the frame index by exactly one, modulo 2^32. |
| RfxCompose.NextContext | libfreerdp-codec/rfx_compose.c:415-423 | After a message the header is marked sent if it was due, the frame index moves on, and the quants are kept. |
| RfxCompose.ComposeMessage | libfreerdp-codec/rfx_compose.c:415-423 | The message leaves the frame index one further, and the header sent whenever it was due. |
| RfxRoundTrip.PropertiesRoundTrip | libfreerdp-codec/rfx_compose.c:193-198 | The decoder's masks recover the flags and the entropy id the composer packed. |
| RfxRoundTrip.ContextBlockDecodes | libfreerdp-codec/rfx_platform_default.c:172-205 | The decoder, given the composer's context block, takes over exactly its flags and mode. |
| RfxRoundTrip.CodecVersionsBlockDecodes | libfreerdp-codec/rfx_compose.c:162-169 | The corrected handler, given the composer's codec-versions block, takes codec id 1 and version 1.0. The handler as written takes version 0 from the same block. |
| RfxRoundTrip.QuantsRoundTrip | libfreerdp-codec/rfx_compose.c:350-355 | The parser's nibble split undoes the composer's packing for values below 16. |
| RfxRoundTrip.DefaultQuantsRoundTrip | libfreerdp-codec/rfx_compose.c:313-355 | The packed default table expands back to the default values. |
| RfxRoundTrip.TileJobsRowMajor | libfreerdp-codec/rfx_compose.c:360-370 | Grid cell (x, y) is job y·nX + x, so tiles run row by row, left to right. |
| RfxRoundTrip.TileWidthsCover | libfreerdp-codec/rfx_compose.c:360-368 | Every tile but the last column is exactly 64 wide. The last is between 1 and 64 wide: w − 64(nX−1), so a row's widths add up to the frame width. |
| RfxRoundTrip.TileHeightsCover | libfreerdp-codec/rfx_compose.c:360-368 | Every tile but the last row is exactly 64 high. The last is between 1 and 64 high: h − 64(nY−1), so a column's heights add up to the frame height. |
| RfxRoundTrip.HeaderSentOnce | libfreerdp-codec/rfx_compose.c:415-423 | After any message the header is marked sent, so the next message does not carry it. |
| RfxRoundTrip.ResetSendsHeader | libfreerdp-codec/rfx_compose.c:123-128 | After reset the next message carries the header again. |
| RfxRoundTrip.TruncAbsorbs | libfreerdp-codec/rfx_compose.c:415-423 | Truncating the frame index to 32 bits after each step gives the same result as truncating the total once. |
| RfxRoundTrip.StreamCounts | libfreerdp-codec/rfx_compose.c:415-423 | A stream of n messages from a reset carries the header in the first only, and the frame index counts the messages modulo 2^32. |
| RfxRoundTrip.MessageOpens | libfreerdp-codec/rfx_compose.c:415-423 | A message opens with the sync block exactly when the header is due, and otherwise with frame begin. |
| CvtLayout.DecodeDisplay | libfreerdp-codec/rfx_platform_cvt.c:115-170 | S0, CLONE and unknown layouts give display 0, and S1 gives display 1. Side-by-side layouts pick the first half iff destLeft < width; stacked layouts pick it iff destTop < height. |
| CvtLayout.DecodeDisplayHoldsPoint | libfreerdp-codec/rfx_platform_cvt.c:115-170 | The chosen display is the one whose screen holds the destination point. |
| CvtGeometry.OverlappingSharesPixel | libfreerdp-codec/rfx_platform_cvt.c:58-68 | Rects sharing a pixel overlap; non-empty overlapping rects share a pixel. The test is symmetric, and edge-touching rects do not overlap. |
| CvtGeometry.InRectHoldsPixels | libfreerdp-codec/rfx_platform_cvt.c:48-56 | A non-empty rect is in another exactly when every one of its pixels is. |
| CvtGeometry.GetClip | libfreerdp-codec/rfx_platform_cvt.c:70-113 | It returns the number of message rects overlapping the tile. The first clip goes to dst and the rest go in order to ext, each with rect = tile and clip = an overlapping message rect. |
| CvtGeometry.ClipsComplete | libfreerdp-codec/rfx_platform_cvt.c:70-113 | Every message rect overlapping the tile appears among its clips. |
| CvtGeometry.ClipList | libfreerdp-codec/rfx_platform_cvt.c:361-386 | The clip list is as long as the count the source adds up: a tile with no overlap counts once. |
| CvtGeometry.ClipListSound | libfreerdp-codec/rfx_platform_cvt.c:361-386 | Every entry is a tile clipped to an overlapping message rect, or a tile that nothing overlaps clipped to itself. |
| CvtGeometry.ClipListComplete | libfreerdp-codec/rfx_platform_cvt.c:361-386 | Every tile has an entry, and every overlapping (tile, message rect) pair is listed. |
| CvtGeometry.ClipListAsWritten | libfreerdp-codec/rfx_platform_cvt.c:366-386 | As written, a fallback entry keeps whatever rect the buffer held. The list has the same length as the clip list. |
| CvtGeometry.ClipListAsWrittenAgrees | libfreerdp-codec/rfx_platform_cvt.c:366-386 | The two lists agree whenever every tile overlaps some message rect, or the buffer already held the tile. |
| CvtGeometry.ClipFallbackLosesTile | libfreerdp-codec/rfx_platform_cvt.c:369-377 | A tile nothing overlaps gets an entry that does not draw the tile as written; the corrected entry does draw it. |
| CvtGeometry.SameDrawsSame | libfreerdp-codec/rfx_platform_cvt.c:406-435 | rects_compare is an equivalence, and entries it calls the same draw the same pixels. |
| CvtGeometry.CopyOptimize | libfreerdp-codec/rfx_platform_cvt.c:500-523 | For num ≥ 1 it returns between 1 and num entries, no two consecutive entries sharing a rect, with the first and last rect kept. |
| CvtGeometry.CopyOptimizeFolds | libfreerdp-codec/rfx_platform_cvt.c:500-523 | Every output entry is an input entry as it came, or a tile that two neighbouring input entries share, clipped to itself. |
| CvtGeometry.CopyOptimizeKeepsDistinct | libfreerdp-codec/rfx_platform_cvt.c:500-523 | An input in which no two neighbouring entries share a rect comes back unchanged. |
| CvtGeometry.CopyOptimizeCovers | libfreerdp-codec/rfx_platform_cvt.c:500-523 | Every pixel the input draws is drawn by the output, and every pixel the output draws lies in an input tile. |
| CvtMerge.TileRect | libfreerdp-codec/rfx_platform_cvt.c:304-309 | Tile (x, y) is the 64×64 rect at (64x, 64y), cut to 16 bits. |
| CvtMerge.HMerge | libfreerdp-codec/rfx_platform_cvt.c:304-324 | The horizontal merge never lengthens the list. |
| CvtMerge.HMergeTwoTiles | libfreerdp-codec/rfx_platform_cvt.c:304-324 | Tiles (0,0) and (1,0) become one 128×64 rect. |
| CvtMerge.HMergeCovers | libfreerdp-codec/rfx_platform_cvt.c:304-324 | Merged rects cover exactly the pixels of the tiles. |
| CvtMerge.HMergeCopiesCovers | libfreerdp-codec/rfx_platform_cvt.c:437-466 | tile_merge's horizontal pass draws exactly the pixels of its input entries. |
| CvtMerge.HMergeCopies | libfreerdp-codec/rfx_platform_cvt.c:437-466 | tile_merge's horizontal pass never lengthens the list and leaves it empty only when it was empty. Its coverage is stated by CvtMerge.HMergeCopiesCovers. |
| CvtMerge.Compact | libfreerdp-codec/rfx_platform_cvt.c:349-359 | Compaction keeps exactly the non-zero-width entries, in order, and never lengthens the list. |
| CvtMerge.CompactSplit | libfreerdp-codec/rfx_platform_cvt.c:349-359 | Compaction distributes over concatenation, so relative order is kept. |
| CvtMerge.VMergeCovers | libfreerdp-codec/rfx_platform_cvt.c:333-359 | The vertical merge with compaction draws exactly the pixels of its input, for full-height entries within 16 bits. |
| CvtMerge.VMerge | libfreerdp-codec/rfx_platform_cvt.c:333-359 | The output has no zero-width entries and is no longer than the input. |
| CvtMerge.TileMerge | libfreerdp-codec/rfx_platform_cvt.c:437-498 | tile_merge never lengthens the list and leaves no zero-width entries. |
| CvtMerge.TileMergeCovers | libfreerdp-codec/rfx_platform_cvt.c:437-498 | tile_merge draws exactly the pixels of its input tiles. |
| CvtMerge.BlitRectsCover | libfreerdp-codec/rfx_platform_cvt.c:304-359 | The blit rects (horizontal merge, vertical merge, compaction) cover exactly the tiles read. |
| CvtTileset.TileRun | libfreerdp-codec/rfx_platform_cvt.c:266-278 | The tiles read are the blocks up to the first one that is not CBT_TILE. |
| CvtTileset.DataSizeIsTotal | libfreerdp-codec/rfx_platform_cvt.c:325 | The data size is the sum of the tiles' block lengths, modulo 2^32. |
| CvtTileset.HwQuants | libfreerdp-codec/rfx_platform_cvt.c:294-302 | The 15 hardware quant bytes are the three chosen sets, each reversed and nibble-swapped. |
| CvtTileset.HwQuantsHoldValues | libfreerdp-codec/rfx_platform_cvt.c:294-302 | Hardware byte 4−j of a plane holds the set's values 2j and 2j+1 as its high and low nibble. This ties it to the decoder's nibble split. |
| CvtTileset.FrameQuants | libfreerdp-codec/rfx_platform_cvt.c:280-302 | For a frame whose quant indices pass the check, the hardware quant table is 15 bytes. With no tile read it is all zero; otherwise byte k of each set is the nibble-swapped byte 4 - k of the first tile's Y, U or V set. |
| CvtTileset.FrameQuantsAsWritten | libfreerdp-codec/rfx_platform_cvt.c:286-301 | As written, a Y index equal to numQuants passes and the Y bytes are the nibble-swapped bytes after the table, last first. |
| CvtTileset.FrameQuantsAgree | libfreerdp-codec/rfx_platform_cvt.c:286-301 | When the corrected check passes, the check as written passes too and both tables are the same. |
| CvtTileset.QuantIndexOkAsWritten | libfreerdp-codec/rfx_platform_cvt.c:286-288 | The check as written: an index is rejected only when it exceeds numQuants. |
| CvtTileset.QuantCheckAsWrittenOverreads | libfreerdp-codec/rfx_platform_cvt.c:286-301 | The check as written accepts index numQuants; the corrected check rejects it; the five bytes read for it lie past the table. |
| CvtTileset.QuantIndexOkInBounds | libfreerdp-codec/rfx_platform_cvt.c:286-301 | Under the corrected check, every quant read lies inside the table. |
| CvtTileset.ProcessTileset | libfreerdp-codec/rfx_platform_cvt.c:172-404 | The pass does nothing exactly when the subtype is wrong, numQuants or numTiles is 0, or the first tile's quant index is bad. Otherwise the job has the layout's display, one size per tile read, the data size of the tiles read, a clip list over the merged blit rects, and no copy rects. Its quants are the first tile's three sets, nibble-swapped, or all zero when no tile was read. |
| CvtTileset.StaleRects | libfreerdp-codec/rfx_platform_cvt.c:361-362 | A fresh buffer of n rects holds the given stale rects where they are defined. |
| CvtTileset.ProcessTilesetAsWritten | libfreerdp-codec/rfx_platform_cvt.c:172-404 | The pass as written does nothing exactly when the frame is refused or the first tile's indices exceed numQuants. Otherwise the job has the same display, sizes and data size, and its tile rects are the as-written clip list over the merged blit rects with the buffer's stale rects. |
| CvtTileset.TilesetAsWrittenAgrees | libfreerdp-codec/rfx_platform_cvt.c:286-288 | When the corrected quant check passes and every merged tile overlaps a message rect, the pass as written hands the driver the same job as the corrected pass. |
| CvtTileset.TilesetAsWrittenOverreads | libfreerdp-codec/rfx_platform_cvt.c:286-301 | With the first tile's Y index equal to numQuants, the corrected pass refuses the frame, and the pass as written sends Y quants read past the table. |
| CvtTileset.TilesetCoversTiles | libfreerdp-codec/rfx_platform_cvt.c:172-404 | The job's clip list covers exactly the pixels of the tiles read, and each entry is a blit rect with a valid clip. |
| CvtTileset.ClipListRects | libfreerdp-codec/rfx_platform_cvt.c:361-386 | The rects of a clip list cover exactly its tiles. |
| CvtOpt.SavedIsClipList | libfreerdp-codec/rfx_platform_cvt.c:629-698 | Tile i's first clip goes to slot i and further clips from slot numTiles on. When every block is a tile, the saved slots read back as the clip list. |
| CvtOpt.CopyDiff | libfreerdp-codec/rfx_platform_cvt.c:730-748 | The entries to copy are never more than the previous frame's entries. |
| CvtOpt.CopyDiffExact | libfreerdp-codec/rfx_platform_cvt.c:730-748 | An entry is copied exactly when the previous frame saved it and no entry saved now is the same by rects_compare. |
| CvtOpt.CopyRects | libfreerdp-codec/rfx_platform_cvt.c:752-778 | At most 160 copy rects are sent, and none when nothing is to be copied. When merging and folding leave more than 160 entries, the one copy rect is the whole screen; otherwise the folded entries are sent as they are. |
| CvtOpt.CopyRectsCover | libfreerdp-codec/rfx_platform_cvt.c:752-778 | Every on-screen pixel an entry to copy draws is drawn by the copy rects, including when they collapse to the full screen. |
| CvtOpt.ProcessOpt | libfreerdp-codec/rfx_platform_cvt.c:525-852 | The pass refuses in the same cases as the plain pass and then leaves the state alone. Otherwise: it saves this frame's clips in the current table and records the saved count; it flips the current table and leaves the other display alone; apart from the copy rects, the job is the plain pass's. |
| CvtOpt.OptAdvance | libfreerdp-codec/rfx_platform_cvt.c:617-842 | After a frame, the frame's display flips its current table, saves this frame's clips in the old current table and records the saved count; the other table and the other display are unchanged. |
| CvtOpt.ProcessOptAsWritten | libfreerdp-codec/rfx_platform_cvt.c:525-852 | The OPT pass as written refuses only when the frame is refused or an index exceeds numQuants, and then leaves the state alone. Otherwise the state moves on as in the corrected pass, and apart from the copy rects the job is the plain pass's as written. |
| CvtOpt.OptAsWrittenAgrees | libfreerdp-codec/rfx_platform_cvt.c:651-660 | When the corrected quant check passes and every merged tile overlaps a message rect, the OPT pass as written gives the same job and state as the corrected one. |
| CvtOpt.OptAsWrittenOverreads | libfreerdp-codec/rfx_platform_cvt.c:651-668 | With the first tile's Y index equal to numQuants, the corrected OPT pass leaves the state alone. The pass as written flips the display's table and sends Y quants read past the table. |
| CvtOpt.HandOff | libfreerdp-codec/rfx_platform_cvt.c:617-842 | After a frame in which every block is a tile, the next frame on that display compares against exactly this frame's clip list. |
| CvtOpt.OptCopiesUnmatched | libfreerdp-codec/rfx_platform_cvt.c:730-778 | Every on-screen pixel drawn by a previous entry that nothing saved now matches is drawn by the job's copy rects. |
| XfCvt.DirectBlit | client/X11/xf_platform_cvt.c:254-331 | The display is the decoder's choice. The coordinates are the destination less that display's origin: the width on the second half of a side-by-side desktop, the height on the second half of a stacked one. |
| XfCvt.DirectBlitOnMonitor | client/X11/xf_platform_cvt.c:254-331 | On a two-monitor desktop, the blit coordinates are the destination measured from the corner of the monitor it lies on. |
| XfCvt.ServerType | client/X11/xf_platform_cvt.c:113-116 | The server is RDVH exactly when frame acknowledge was received, and RDSH otherwise. |
| XfCvt.OpMode | client/X11/xf_platform_cvt.c:123-167 | With RemoteFX the mode is one of RDSH, RDSH_OPT, RDVH or RDVH_OPT; without it the mode is unchanged. |
| XfCvt.OpModeMeaning | client/X11/xf_platform_cvt.c:123-167 | RDVH modes are chosen exactly for a frame-acknowledging server outside server mode. Optimisation is on exactly when: mode 2 was asked for; auto was asked for on a session host; or, in server mode, anything but 0 or 1 was asked for. |
| XfCvt.ProcessArgs | client/X11/xf_platform_cvt.c:522-591 | For each valued option, a missing value fails. The atoi of a present value is stored before the check, and --rfx-cvt-opt in 0..2, -nm in {1, 2} and -lm ≤ 6 (after 8-bit truncation) consume 2. -fb stores its value cut to 8 bits and consumes 2. --hw-crypto-eng consumes 1, and anything else consumes 0 and changes nothing. |
| XfCvt.AcceptedArgsKeepUsable | client/X11/xf_platform_cvt.c:522-591 | Accepted options keep usable settings usable, and a decimal value in range is stored as written. |
| XfCvt.LayoutStoredInEightBits | client/X11/xf_platform_cvt.c:559-573 | `-lm 258` is accepted as layout 2, because the value is cut to 8 bits before the check. |
| XfCvt.DocumentedMonitorOptionIgnored | client/X11/xf_platform_cvt.c:515-516 | The documented spelling `--nm 2` falls through as an unknown option and sets nothing. |
| XfCvt.ProcessArgsDocumented | client/X11/xf_platform_cvt.c:544-559 | The corrected parser handles every option other than `--nm` and `--lm` as the source does. |
| XfCvt.DocumentedOptionsRecognised | client/X11/xf_platform_cvt.c:512-518 | Under the corrected parser, every option the help text lists is recognised, and `--nm`/`--lm` act as `-nm`/`-lm`. |
| XfCvt.DetectMonitors | client/X11/xf_platform_cvt.c:66-86 | Monitor i is at (0, i·h) for the T0_B1 and T1_B0 layouts and at (i·w, 0) otherwise, is screen-sized, and is primary iff i = 0. The desktop's height (stacked) or width is multiplied by the count. |
| XfCvt.MonitorsTileDesktop | client/X11/xf_platform_cvt.c:66-86 | A desktop point is on monitor i exactly when it lies in the i-th screen-sized slot along the layout's direction. |
| XfCvt.DesktopCovered | client/X11/xf_platform_cvt.c:66-86 | Every desktop point is on some monitor. |
| UsbDevMan.NewDevMan | channels/drdynvc/urbdrc/libusb/libusb_udevman.c:422-426 | A new manager has an empty, well-linked list. |
| UsbDevMan.RewindVisitsAll | channels/drdynvc/urbdrc/libusb/libusb_udevman.c:69-96 | After rewind there is a next device exactly when the list is non-empty, and get_next visits the list in order. |
| UsbDevMan.VisitInOrder | channels/drdynvc/urbdrc/libusb/libusb_udevman.c:77-96 | From position i, n steps of get_next return hs[i..i+n]. |
| UsbDevMan.GetByUsbDevice | channels/drdynvc/urbdrc/libusb/libusb_udevman.c:283-327 | It finds a device exactly when one carries the id, and returns the first such device. The list is left unchanged. |
| UsbDevMan.Scan | channels/drdynvc/urbdrc/libusb/libusb_udevman.c:99-119 | The rewind-and-match loop of get_udevice_by_addr and get_udevice_by_UsbDevice: it returns the first device that matches, or none, and leaves the iterator just past it. |
| UsbDevMan.Register | channels/drdynvc/urbdrc/libusb/libusb_udevman.c:124-167 | It returns 1 exactly for a known option and a successful creation. Otherwise it returns 0 with the manager unchanged. On success the device is appended at the tail and the count increases by one. |
| UsbDevMan.RegisterAppends | channels/drdynvc/urbdrc/libusb/libusb_udevman.c:150-166 | A successful register links the list as hs + [device] and keeps every other id. |
| UsbDevMan.Unregister | channels/drdynvc/urbdrc/libusb/libusb_udevman.c:171-254 | With a device at the address, it removes exactly that device, keeping the order, head, tail and count right, and returns 1. Without one, it returns 0, and the only change is that the device iterator is left past the end of the list. |
| UsbDevMan.UnlinkRemoves | channels/drdynvc/urbdrc/libusb/libusb_udevman.c:185-214 | Unlinking the device at index k leaves the list linked as hs without its k-th element. |
| UsbDevMan.Unlink | channels/drdynvc/urbdrc/libusb/libusb_udevman.c:185-214 | unregister's unlinking of a device from the list. UsbDevMan.UnlinkRemoves states the result. |
| UsbDevMan.Release | channels/drdynvc/urbdrc/libusb/libusb_udevman.c:185-214 | The device record is freed: its handle leaves the heap. UsbDevMan.UnlinkRemoves states the result together with the unlinking. |
| UsbDevMan.RegisterThenUnregister | channels/drdynvc/urbdrc/libusb/libusb_udevman.c:124-254 | Registering at an unused address and then unregistering that address restores the manager. |
| UsbDevManEntry.ParseTwoIds | channels/drdynvc/urbdrc/libusb/libusb_udevman.c:257-267 | It parses exactly when a separator appears within the first five characters, and yields atoi of the text before it and after it. |
| UsbDevManEntry.ParseTwoIdsDecimal | channels/drdynvc/urbdrc/libusb/libusb_udevman.c:257-267 | Printing two numbers around a separator parses back, for a first number below 10000. |
| UsbDevManEntry.EntryNumbers | channels/drdynvc/urbdrc/libusb/libusb_udevman.c:410-467 | At start-up the created devices form the list in token order, and the i-th carries id 5 + i. defUsbDevice ends as the next unused id. |
| UsbDevManEntry.Entry | channels/drdynvc/urbdrc/libusb/libusb_udevman.c:410-467 | The start-up entry: a new manager, then one registration per address token, numbered from 5. UsbDevManEntry.EntryNumbers states the result. |

## Left out

- Device I/O, which the model replaces with the rect lists and decode jobs
  handed to the driver:
  - every `ioctl`, `open` and `close` call;
  - the frame-marker and NSC and bitmap paths of the client;
  - rfx_context_new of the hardware path.
- X11 calls and screen queries. The screen width and height are inputs.
- The entropy, wavelet and colour pipeline (`rfx_encode_rgb`, `rfx_decode_rgb`). The encoder is a function parameter, and tile decoding keeps only the tile's fields.
- Memory management, which has no visible effect on the modelled values:
  - region buffer growth and shrinking;
  - realloc of rects, channels and quants;
  - profilers;
  - the tile pool.
- The mutex and semaphore of the USB manager, libusb calls, and `strtok` plumbing. Start-up takes the tokens as a list.
- The 1024-slot bound of the static tile tables (`g_rects_tile`, `g_rects_copy`). The model's tables are maps without a bound, so a frame that saves more than 1024 entries overflows in the source but not here.
- The printed warning for more than 160 tile rects in a decode job. The source only prints it.
- RegionSound.OpSound: promises its coverage only for box edges in 0..32767 (`Region.FitsSint16`). The band walk keeps ytop, ybot and the overlap's x1 and x2 in `sint16` locals (region.c:273-281, 500-501); the model's coordinates are unbounded integers, so an edge of 32768 or more, which those locals would read as negative, is outside the lemma.
- RegionSound.UnionSound, RegionSound.UnionWalkSound and RegionSound.IntersectSound: require the same 0..32767 range of their operands, for the same reason.
- RegionSound.UnionRectSound: states exact coverage only when the rect's edges and the source's lie within 32767, for the same reason.
- Tile rect arithmetic wraps at 16 bits as in the source (`TileRect`). The coverage lemmas of the merges (`CvtMerge.HMergeCovers`, `CvtMerge.VMergeCovers`, `CvtMerge.TileMergeCovers`, `CvtMerge.BlitRectsCover`, `CvtTileset.TilesetCoversTiles`) assume every rect fits below 65536, so wrapped merges are not covered.
- RfxDecode.ProcessMessage: its own contract states only the destination rect, the pixel format and the slot count. What a message decodes to is stated per block (the handler contracts, `Dispatch`) and for the walk's reads (`WalkReads`, `WalkSkipsUnread`), not as one contract over a whole message.
- RfxDecode.Walk: keeps the block cursor as an unbounded number. The source stores each block end in an `int` (rfx_platform_default.c:319), which wraps at 32 bits. RfxCursorWalk.WalkAsWritten models that cursor, and RfxCursorWalk.WalkAsWrittenAgrees shows the two agree while every block end stays below 2^31 (see Findings).
- RfxDecode.WalkSkipsUnknown: states the resynchronisation for the unbounded cursor. For the source it holds only while the block start plus blockLen stays below 2^31.
- RfxDecode.WalkReads: states that only bytes from the cursor on are read, for the unbounded cursor. In the source, a block end of 2^31 or more moves the cursor back, below the starting cursor (RfxCursorWalk.WalkAsWrittenLoops).
- RfxDecode.WalkSkipsUnread: states the resynchronisation at the block start plus blockLen for the unbounded cursor. For the source it holds only while that sum stays below 2^31.
- RfxDecode.TileWalk: keeps the tile cursor as an unbounded number; the source's wraps like the message cursor (rfx_platform_default.c:275). RfxCursorTiles.TileWalkAsWritten models it, and RfxCursorTiles.TileWalkAsWrittenAgrees relates the two.
- RfxCursorWalk.WalkAsWritten: hands a tileset block to the tileset handler with the unbounded tile cursor. The tile loop's own wrap is modelled apart, by RfxCursorTiles.TileWalkAsWritten.
- The hardware decoder's message loop (rfx_platform_cvt.c:965-1055) is the default loop with the tileset block sent to the CVT passes. It is not modelled again. The CVT passes (`CvtTileset.ProcessTileset`, `CvtTileset.ProcessTilesetAsWritten`, `CvtOpt.ProcessOpt`, `CvtOpt.ProcessOptAsWritten`) take the tileset as a parsed list of tile blocks (`CvtTileset.TilesetBody`). Their byte loop (rfx_platform_cvt.c:266-278 and 633-645) is not modelled: the reads of blockType and blockLen, the unchecked reads, and the cursor arithmetic with its 32-bit wrap.
- CvtOpt.CopyRects: when tile_merge leaves no entry (only possible when every entry to copy has width 0), the source calls copy_rects_optimize with 0 and reports 1 copy rect; the model sends none.
- CvtGeometry.CopyOptimize: requires at least one entry; its caller only calls it then, and the source's result for 0 entries (1) is not modelled.
- CvtOpt.HandOff: stated only for frames in which every block is a tile. When the tile loop stops early, the source saves the further clips from slot numTiles on but reads the list back from slot 0, so stale slots are compared. `CvtOpt.SaveClips` and `CvtOpt.Previous` model that layout as written.
- CvtOpt.OptCopiesUnmatched and CvtOpt.CopyRectsCover: only pixels on one display's screen are promised, as in the full-screen fallback, and only for previous entries that are whole tiles within 16 bits.
- The pixel values a stream read yields past the end of a buffer. Every modelled read is bounds-checked, and a short buffer makes the handler fail.
- The creation of a USB device (`udev_new_by_addr` and friends). It is an outcome supplied by the caller: a new record or a failure.
- `atoi` overflow, which is undefined in C. `Common.Atoi` reads unbounded integers.
- UsbDevManEntry.Entry: takes only tokens the start-up loop handles without undefined behaviour. Three inputs are excluded. A token of 16 or more characters overflows `hardware_id[16]` in the `strcpy` (libusb_udevman.c:451). A token without `_` makes `strchr` return NULL, which is then incremented (line 262). A prefix before `_` longer than 4 characters overflows `s1[5]` in the `strncpy` (line 263).
- CvtGeometry.ClipList: is defined for a message with no rects, where every tile takes the fallback entry. In the source, `num_rects_max` is then 0, so the zero-sized buffer from `xmalloc` is written past (rfx_platform_cvt.c:361-362 and 809-810). The model gives the entries the source meant to write.

## Findings

| source | as written | input that shows it | evidently intended | confidence | as-written member | corrected member |
|---|---|---|---|---|---|---|
| libfreerdp-codec/rfx_utils.c:70 | the two-byte codec version is read with a one-byte read | a codec-versions body carrying version 1.0 (0x0100) | read two bytes, as the field layout of [MS-RDPRFX] section 2.2.2.1.3 has it | not executed | RfxParse.ParseCodecVersionsAsWritten, RfxParse.CodecVersionsAsWrittenLosesVersion, RfxDecode.ProcessCodecVersions | RfxParse.ParseCodecVersions, RfxParse.CodecVersionsRoundTrip, RfxDecode.ProcessCodecVersionsCorrected, RfxRoundTrip.CodecVersionsBlockDecodes |
| libfreerdp-codec/rfx_platform_cvt.c:286-288 | a quant index is rejected only when it is greater than num_quants (also at line 653) | a first tile whose quantIdxY equals numQuants | reject an index ≥ num_quants, since sets are numbered from 0 | not executed | CvtTileset.QuantIndexOkAsWritten, CvtTileset.QuantCheckAsWrittenOverreads, CvtTileset.TilesetAsWrittenOverreads, CvtOpt.OptAsWrittenOverreads | CvtTileset.QuantIndexOk, CvtTileset.QuantIndexOkInBounds, CvtTileset.ProcessTileset, CvtOpt.ProcessOpt |
| libfreerdp-codec/rfx_platform_cvt.c:369-377 | for a tile no message rect overlaps, only the clip window of the entry is written; its rect keeps the allocated buffer's contents (also at lines 817-825) | a tile at (0,0) with the only message rect at (100,100) | write the tile into the entry's rect as well | not executed | CvtGeometry.ClipListAsWritten, CvtGeometry.ClipFallbackLosesTile, CvtTileset.ProcessTilesetAsWritten | CvtGeometry.ClipList, CvtTileset.ClipListRects, CvtTileset.ProcessTileset |
| client/X11/xf_platform_cvt.c:515-516 | the help text lists `--nm` and `--lm`, but the handler compares against `-nm` and `-lm` (lines 544, 559) | the option `--nm` with value `2` | accept the documented spelling | not executed | XfCvt.ProcessArgs, XfCvt.DocumentedMonitorOptionIgnored | XfCvt.ProcessArgsDocumented, XfCvt.DocumentedOptionsRecognised |
| libfreerdp-codec/rfx_platform_default.c:319 | the block end `stream_get_pos(s) - 6 + blockLen` is stored in an `int`, so it wraps at 32 bits (also at line 275, and at rfx_platform_cvt.c lines 272, 639 and 996) | a 17-byte message: a block of unknown type with length 10, then one with length 0xFFFFFFF6, whose end 2^32 is stored as 0 | a block end beyond the data ends the walk | not executed | RfxCursorWalk.WalkAsWritten, RfxCursorWalk.WalkAsWrittenLoops, RfxCursorWalk.WalkAsWrittenUnderruns, RfxCursorTiles.TileWalkAsWritten, RfxCursorTiles.TileWalkAsWrittenRereads | RfxDecode.Walk, RfxDecode.WalkReads, RfxDecode.TileWalk, RfxCursorWalk.WalkAsWrittenAgrees, RfxCursorTiles.TileWalkAsWrittenAgrees |
