/**
 * The two tileset passes of the hardware decoding path
 * (rfx_platform_cvt.c): the plain pass, and the RDVH_OPT pass that also
 * works out which tiles of the previous frame must be copied forward.
 * Each turns a parsed tileset into the job handed to the driver; the
 * driver call itself is not part of this model. The static tables the
 * RDVH_OPT pass keeps between frames are explicit state here.
 */
module CvtTileset {
  import opened Common
  import RfxWire
  import RfxParse
  import opened CvtLayout
  import opened CvtGeometry
  import opened CvtMerge

  /**
   * An RFX_TILE block as the hardware path reads it: block type and
   * length, the three quant indices and the grid position. The tile's
   * plane data stays in the stream for the driver.
   */
  datatype TileBlock = TileBlock(blockType: u16, blockLen: u32, quantIdxY: u8, quantIdxU: u8, quantIdxV: u8,
                                 xIdx: u16, yIdx: u16)

  /** A tileset body: subtype, the quant table (five bytes per quant) and the numTiles blocks that follow. */
  datatype TilesetBody = TilesetBody(subtype: u16, numQuants: u8, quantVals: seq<u8>, blocks: seq<TileBlock>)

  predicate Shaped(t: TilesetBody)
  {
    |t.quantVals| == 5 * t.numQuants && |t.blocks| < 0x1_0000
  }

  /**
   * The screen a tileset is decoded for: the size of one screen (the
   * context's width and height), the monitor layout, the destination
   * point of the surface command and the message's region rects.
   */
  datatype Frame = Frame(width: u16, height: u16, layout: u8, destLeft: u16, destTop: u16, rects: seq<Rect>)

  /** decode_st, less the pointer to the frame data. */
  datatype DecodeJob = DecodeJob(display: nat, destX: u16, destY: u16, quants: seq<u8>, numTiles: nat,
                                 sizes: seq<u32>, dataSize: u32, tileRects: seq<CvtRect>, copyRects: seq<CvtRect>)

  // -----------------------------------------------------------------------
  // Tiles and sizes
  // -----------------------------------------------------------------------

  /** The tiles read: the blocks up to the first one that is not a CBT_TILE block, where the loop stops. */
  function TileRun(blocks: seq<TileBlock>): (run: seq<TileBlock>)
    ensures |run| <= |blocks| && run == blocks[..|run|]
    ensures forall k :: 0 <= k < |run| ==> run[k].blockType == RfxWire.CBT_TILE
    ensures |run| < |blocks| ==> blocks[|run|].blockType != RfxWire.CBT_TILE
  {
    if |blocks| == 0 || blocks[0].blockType != RfxWire.CBT_TILE then []
    else [blocks[0]] + TileRun(blocks[1..])
  }

  /** The tile rects of the tiles read, in order. */
  function TileRects(run: seq<TileBlock>): (rs: seq<Rect>)
    ensures |rs| == |run|
    ensures forall k :: 0 <= k < |run| ==> rs[k] == TileRect(run[k].xIdx, run[k].yIdx)
  {
    seq(|run|, k requires 0 <= k < |run| => TileRect(run[k].xIdx, run[k].yIdx))
  }

  /** The block lengths, one per tile read. */
  function Sizes(run: seq<TileBlock>): (ss: seq<u32>)
    ensures |ss| == |run|
    ensures forall k :: 0 <= k < |run| ==> ss[k] == run[k].blockLen
  {
    seq(|run|, k requires 0 <= k < |run| => run[k].blockLen)
  }

  /** The exact total of the block lengths. */
  function Total(run: seq<TileBlock>): nat
  {
    if |run| == 0 then 0 else Total(run[..|run| - 1]) + run[|run| - 1].blockLen
  }

  /** data_size: the block lengths added up one by one in a 32-bit field. */
  function DataSize(run: seq<TileBlock>): (n: u32)
  {
    if |run| == 0 then 0 else Trunc32(DataSize(run[..|run| - 1]) + run[|run| - 1].blockLen)
  }

  /** The 32-bit running sum is the exact total reduced modulo 2^32. */
  lemma {:induction false} DataSizeIsTotal(run: seq<TileBlock>)
    ensures DataSize(run) == Total(run) % 0x1_0000_0000
  {
    if |run| > 0 {
      var init := run[..|run| - 1];
      DataSizeIsTotal(init);
      ModAdd32(Total(init), run[|run| - 1].blockLen);
    }
  }

  lemma {:induction false} ModAdd32(a: nat, b: nat)
    ensures (a % 0x1_0000_0000 + b) % 0x1_0000_0000 == (a + b) % 0x1_0000_0000
  {
    var q := a / 0x1_0000_0000;
    var x := a % 0x1_0000_0000 + b;
    assert a + b == q * 0x1_0000_0000 + x;
    var qx := x / 0x1_0000_0000;
    assert a + b == (q + qx) * 0x1_0000_0000 + x % 0x1_0000_0000;
  }

  // -----------------------------------------------------------------------
  // Quant values for the hardware
  // -----------------------------------------------------------------------

  /**
   * (quant >> 4) | (quant << 4) kept to eight bits: the high nibble moves
   * down and the low nibble moves up.
   */
  function Swap(b: u8): u8
  {
    16 * (b % 16) + b / 16
  }

  /** One plane's five hardware bytes: the set's bytes, nibble-swapped, last byte first. */
  function Plane(vals: seq<u8>, q: nat): (p: seq<u8>)
    requires 5 * q + 5 <= |vals|
    ensures |p| == 5
    ensures forall k :: 0 <= k < 5 ==> p[k] == Swap(vals[5 * q + 4 - k])
  {
    seq(5, k requires 0 <= k < 5 => Swap(vals[5 * q + 4 - k]))
  }

  /** The 15-byte hardware table: the Y plane, then U, then V. */
  function HwQuants(vals: seq<u8>, y: nat, u: nat, v: nat): (hw: seq<u8>)
    requires 5 * y + 5 <= |vals| && 5 * u + 5 <= |vals| && 5 * v + 5 <= |vals|
    ensures |hw| == 15
    ensures forall k :: 0 <= k < 5 ==> hw[k] == Swap(vals[5 * y + 4 - k])
    ensures forall k :: 5 <= k < 10 ==> hw[k] == Swap(vals[5 * u + 9 - k])
    ensures forall k :: 10 <= k < 15 ==> hw[k] == Swap(vals[5 * v + 14 - k])
  {
    Plane(vals, y) + Plane(vals, u) + Plane(vals, v)
  }

  /**
   * In terms of the parsed quant values (RfxParse.ExpandQuants of the
   * set's five bytes): hardware byte 4 - j of a plane holds value 2j of
   * the set in its high nibble and value 2j + 1 in its low nibble.
   */
  lemma {:induction false} HwQuantsHoldValues(vals: seq<u8>, y: nat, u: nat, v: nat, j: nat)
    requires 5 * y + 5 <= |vals| && 5 * u + 5 <= |vals| && 5 * v + 5 <= |vals|
    requires j < 5
    ensures var hw := HwQuants(vals, y, u, v);
      var qy := RfxParse.ExpandQuants(vals[5 * y..5 * y + 5]);
      var qu := RfxParse.ExpandQuants(vals[5 * u..5 * u + 5]);
      var qv := RfxParse.ExpandQuants(vals[5 * v..5 * v + 5]);
      hw[4 - j] == 16 * qy[2 * j] + qy[2 * j + 1] &&
      hw[9 - j] == 16 * qu[2 * j] + qu[2 * j + 1] &&
      hw[14 - j] == 16 * qv[2 * j] + qv[2 * j + 1]
  {
    var hw := HwQuants(vals, y, u, v);
    var k := 4 - j;
    assert hw[k] == Swap(vals[5 * y + j]);
    assert hw[9 - j] == Swap(vals[5 * u + j]);
    assert hw[14 - j] == Swap(vals[5 * v + j]);
    assert vals[5 * y..5 * y + 5][j] == vals[5 * y + j];
    assert vals[5 * u..5 * u + 5][j] == vals[5 * u + j];
    assert vals[5 * v..5 * v + 5][j] == vals[5 * v + j];
  }

  /** The check made on the first tile, as written: it rejects an index only when it exceeds numQuants. */
  predicate QuantIndexOkAsWritten(numQuants: nat, y: nat, u: nat, v: nat)
  {
    !(y > numQuants || u > numQuants || v > numQuants)
  }

  /** The check as intended: every index names one of the numQuants sets. */
  predicate QuantIndexOk(numQuants: nat, y: nat, u: nat, v: nat)
  {
    y < numQuants && u < numQuants && v < numQuants
  }

  /**
   * The check as written lets an index equal to numQuants through, and
   * the five bytes then read for that set lie past the end of the table.
   */
  lemma {:induction false} QuantCheckAsWrittenOverreads(t: TilesetBody)
    requires Shaped(t)
    ensures QuantIndexOkAsWritten(t.numQuants, t.numQuants, 0, 0)
    ensures !QuantIndexOk(t.numQuants, t.numQuants, 0, 0)
    ensures 5 * t.numQuants + 5 > |t.quantVals|
  {
  }

  /** The intended check keeps every read inside the table. */
  lemma {:induction false} QuantIndexOkInBounds(t: TilesetBody, y: nat, u: nat, v: nat)
    requires Shaped(t) && QuantIndexOk(t.numQuants, y, u, v)
    ensures 5 * y + 5 <= |t.quantVals| && 5 * u + 5 <= |t.quantVals| && 5 * v + 5 <= |t.quantVals|
  {
  }

  /** The quant check of the first tile fails. */
  predicate BadQuants(t: TilesetBody, run: seq<TileBlock>)
  {
    |run| > 0 && !QuantIndexOk(t.numQuants, run[0].quantIdxY, run[0].quantIdxU, run[0].quantIdxV)
  }

  /** The quant check of the first tile fails as written: an index exceeds numQuants. */
  predicate BadQuantsAsWritten(t: TilesetBody, run: seq<TileBlock>)
  {
    |run| > 0 && !QuantIndexOkAsWritten(t.numQuants, run[0].quantIdxY, run[0].quantIdxU, run[0].quantIdxV)
  }

  /**
   * The hardware quant table: the first tile's three sets, nibble-swapped
   * and last byte first, or all zero (decode_st is cleared) when no tile
   * was read.
   */
  function FrameQuants(t: TilesetBody, run: seq<TileBlock>): (hw: seq<u8>)
    requires Shaped(t) && !BadQuants(t, run)
    ensures |hw| == 15
    ensures |run| == 0 ==> forall k :: 0 <= k < 15 ==> hw[k] == 0
    ensures |run| > 0 ==>
      var y, u, v := run[0].quantIdxY as nat, run[0].quantIdxU as nat, run[0].quantIdxV as nat;
      && (forall k :: 0 <= k < 5 ==> hw[k] == Swap(t.quantVals[5 * y + 4 - k]))
      && (forall k :: 5 <= k < 10 ==> hw[k] == Swap(t.quantVals[5 * u + 9 - k]))
      && (forall k :: 10 <= k < 15 ==> hw[k] == Swap(t.quantVals[5 * v + 14 - k]))
  {
    if |run| == 0 then seq(15, k => 0)
    else HwQuants(t.quantVals, run[0].quantIdxY as nat, run[0].quantIdxU as nat, run[0].quantIdxV as nat)
  }

  /**
   * The hardware quant table as written: an index equal to numQuants
   * passes the check, and its five bytes are read from the memory that
   * follows the table (`beyond`).
   */
  function FrameQuantsAsWritten(t: TilesetBody, run: seq<TileBlock>, beyond: seq<u8>): (hw: seq<u8>)
    requires Shaped(t) && |beyond| == 5 && !BadQuantsAsWritten(t, run)
    ensures |hw| == 15
    ensures |run| == 0 ==> forall k :: 0 <= k < 15 ==> hw[k] == 0
    ensures |run| > 0 && run[0].quantIdxY == t.numQuants ==>
      forall k :: 0 <= k < 5 ==> hw[k] == Swap(beyond[4 - k])
  {
    if |run| == 0 then seq(15, k => 0)
    else
      var mem := t.quantVals + beyond;
      HwQuants(mem, run[0].quantIdxY as nat, run[0].quantIdxU as nat, run[0].quantIdxV as nat)
  }

  /** The two tables agree whenever the intended check passes. */
  lemma {:induction false} FrameQuantsAgree(t: TilesetBody, run: seq<TileBlock>, beyond: seq<u8>)
    requires Shaped(t) && |beyond| == 5 && !BadQuants(t, run)
    ensures !BadQuantsAsWritten(t, run)
    ensures FrameQuantsAsWritten(t, run, beyond) == FrameQuants(t, run)
  {
    if |run| > 0 {
      var mem := t.quantVals + beyond;
      var y, u, v := run[0].quantIdxY as nat, run[0].quantIdxU as nat, run[0].quantIdxV as nat;
      var a, b := HwQuants(mem, y, u, v), HwQuants(t.quantVals, y, u, v);
      forall k | 0 <= k < 15 ensures a[k] == b[k] {
        if k < 5 { assert mem[5 * y + 4 - k] == t.quantVals[5 * y + 4 - k]; }
        else if k < 10 { assert mem[5 * u + 9 - k] == t.quantVals[5 * u + 9 - k]; }
        else { assert mem[5 * v + 14 - k] == t.quantVals[5 * v + 14 - k]; }
      }
    }
  }

  /** The body is refused before any tile is looked at: wrong subtype, no quants or no tiles. */
  predicate Refused(t: TilesetBody)
  {
    t.subtype != RfxWire.CBT_TILESET || t.numQuants < 1 || |t.blocks| < 1
  }

  // -----------------------------------------------------------------------
  // The plain pass (rfx_cvt_process_message_tileset)
  // -----------------------------------------------------------------------

  /**
   * The plain pass: the tiles read are merged and clipped against the
   * message rects; nothing is copied from an earlier frame. None when the
   * pass returns before calling the driver.
   */
  function ProcessTileset(f: Frame, t: TilesetBody): (r: Option<DecodeJob>)
    requires Shaped(t)
    ensures r.None? <==> Refused(t) || BadQuants(t, TileRun(t.blocks))
    ensures r.Some? ==>
      var run := TileRun(t.blocks);
      r.value.display == DecodeDisplay(f.layout, f.destLeft, f.destTop, f.width, f.height) &&
      r.value.numTiles == |t.blocks| && r.value.sizes == Sizes(run) && r.value.dataSize == DataSize(run) &&
      |r.value.quants| == 15 &&
      |r.value.tileRects| == ClipCount(BlitRects(TileRects(run)), f.rects) && r.value.copyRects == []
    ensures r.Some? && |TileRun(t.blocks)| == 0 ==> r.value.quants == seq(15, k => 0)
    ensures r.Some? && |TileRun(t.blocks)| > 0 ==>
      var t0 := TileRun(t.blocks)[0];
      r.value.quants == HwQuants(t.quantVals, t0.quantIdxY as nat, t0.quantIdxU as nat, t0.quantIdxV as nat)
  {
    if Refused(t) then None
    else
      var run := TileRun(t.blocks);
      if BadQuants(t, run) then None
      else
        var tiles := TileRects(run);
        Some(DecodeJob(DecodeDisplay(f.layout, f.destLeft, f.destTop, f.width, f.height), f.destLeft, f.destTop,
                       FrameQuants(t, run), |t.blocks|, Sizes(run), DataSize(run),
                       ClipList(BlitRects(tiles), f.rects), []))
  }

  /** The contents of n freshly allocated rects: the given ones, then zeros. */
  function StaleRects(stale: seq<Rect>, n: nat): (rs: seq<Rect>)
    ensures |rs| == n
    ensures forall i :: 0 <= i < n && i < |stale| ==> rs[i] == stale[i]
  {
    seq(n, i requires 0 <= i < n => if i < |stale| then stale[i] else RfxParse.RfxRect(0, 0, 0, 0))
  }

  /**
   * The plain pass as written: the first tile's indices are checked with
   * `>`, so an index equal to numQuants reads the five bytes after the
   * table (`beyond`), and a merged tile no message rect overlaps gets an
   * entry whose rect is whatever the fresh buffer held (`stale`).
   */
  function ProcessTilesetAsWritten(f: Frame, t: TilesetBody, beyond: seq<u8>, stale: seq<Rect>): (r: Option<DecodeJob>)
    requires Shaped(t) && |beyond| == 5
    ensures r.None? <==> Refused(t) || BadQuantsAsWritten(t, TileRun(t.blocks))
    ensures r.Some? ==>
      var run := TileRun(t.blocks);
      var bs := BlitRects(TileRects(run));
      r.value.display == DecodeDisplay(f.layout, f.destLeft, f.destTop, f.width, f.height) &&
      r.value.numTiles == |t.blocks| && r.value.sizes == Sizes(run) && r.value.dataSize == DataSize(run) &&
      |r.value.quants| == 15 && r.value.copyRects == [] &&
      r.value.tileRects == ClipListAsWritten(bs, f.rects, StaleRects(stale, |bs|))
  {
    if Refused(t) then None
    else
      var run := TileRun(t.blocks);
      if BadQuantsAsWritten(t, run) then None
      else
        var bs := BlitRects(TileRects(run));
        Some(DecodeJob(DecodeDisplay(f.layout, f.destLeft, f.destTop, f.width, f.height), f.destLeft, f.destTop,
                       FrameQuantsAsWritten(t, run, beyond), |t.blocks|, Sizes(run), DataSize(run),
                       ClipListAsWritten(bs, f.rects, StaleRects(stale, |bs|)), []))
  }

  /**
   * The pass as written and the corrected pass hand the driver the same
   * job whenever the intended quant check passes and every merged tile
   * overlaps some message rect.
   */
  lemma {:induction false} TilesetAsWrittenAgrees(f: Frame, t: TilesetBody, beyond: seq<u8>, stale: seq<Rect>)
    requires Shaped(t) && |beyond| == 5 && !BadQuants(t, TileRun(t.blocks))
    requires var bs := BlitRects(TileRects(TileRun(t.blocks)));
      forall i :: 0 <= i < |bs| ==> |Clips(bs[i], f.rects)| > 0
    ensures ProcessTilesetAsWritten(f, t, beyond, stale) == ProcessTileset(f, t)
  {
    var run := TileRun(t.blocks);
    var bs := BlitRects(TileRects(run));
    FrameQuantsAgree(t, run, beyond);
    ClipListAsWrittenAgrees(bs, f.rects, StaleRects(stale, |bs|));
  }

  /**
   * A first tile whose Y index equals numQuants: the corrected pass
   * refuses the frame, the pass as written hands the driver a job whose
   * Y quant bytes come from the memory after the table.
   */
  lemma {:induction false} TilesetAsWrittenOverreads(f: Frame, t: TilesetBody, beyond: seq<u8>, stale: seq<Rect>)
    requires Shaped(t) && |beyond| == 5 && !Refused(t)
    requires var run := TileRun(t.blocks);
      |run| > 0 && run[0].quantIdxY == t.numQuants &&
      run[0].quantIdxU < t.numQuants && run[0].quantIdxV < t.numQuants
    ensures ProcessTileset(f, t).None?
    ensures var r := ProcessTilesetAsWritten(f, t, beyond, stale);
      r.Some? && forall k :: 0 <= k < 5 ==> r.value.quants[k] == Swap(beyond[4 - k])
  {
  }

  /** The tiles lie within the 16-bit space: grid indices below 1023. */
  predicate OnGrid(run: seq<TileBlock>)
  {
    forall k :: 0 <= k < |run| ==> run[k].xIdx < 1023 && run[k].yIdx < 1023
  }

  lemma {:induction false} OnGridTiles(run: seq<TileBlock>)
    requires OnGrid(run)
    ensures forall k :: 0 <= k < |TileRects(run)| ==> TileSized(TileRects(run)[k]) && Fits(TileRects(run)[k])
  {
  }

  /**
   * The plain pass hands the driver entries whose tiles cover exactly the
   * pixels of the tiles read, each clipped by an overlapping message rect
   * or, when none overlaps, by itself; and every overlap of a merged tile
   * with a message rect has its entry.
   */
  lemma {:induction false} TilesetCoversTiles(f: Frame, t: TilesetBody, px: int, py: int)
    requires Shaped(t) && OnGrid(TileRun(t.blocks))
    requires ProcessTileset(f, t).Some?
    ensures var job := ProcessTileset(f, t).value;
      var tiles := TileRects(TileRun(t.blocks));
      (Covers(tiles, px, py) <==> Covers(Rects(job.tileRects), px, py)) &&
      (forall e :: e in job.tileRects ==> ClipOf(e, BlitRects(tiles), f.rects))
  {
    var run := TileRun(t.blocks);
    var tiles := TileRects(run);
    var bs := BlitRects(tiles);
    var es := ClipList(bs, f.rects);
    assert ProcessTileset(f, t).value.tileRects == es;
    OnGridTiles(run);
    BlitRectsCover(tiles, px, py);
    ClipListSound(bs, f.rects);
    ClipListRects(bs, f.rects, px, py);
  }

  /** The tiles of a clip list cover what the tiles it was built from cover. */
  lemma {:induction false} ClipListRects(tiles: seq<Rect>, msg: seq<Rect>, px: int, py: int)
    ensures Covers(Rects(ClipList(tiles, msg)), px, py) <==> Covers(tiles, px, py)
  {
    var es := ClipList(tiles, msg);
    var rs := Rects(es);
    ClipListSound(tiles, msg);
    if Covers(rs, px, py) {
      var k :| 0 <= k < |rs| && HasPoint(rs[k], px, py);
      assert es[k] in es;
      assert rs[k] in tiles;
      var j :| 0 <= j < |tiles| && tiles[j] == rs[k];
    }
    if Covers(tiles, px, py) {
      var j :| 0 <= j < |tiles| && HasPoint(tiles[j], px, py);
      ClipListComplete(tiles, msg, j, tiles[j]);
      var e :| e in es && e.rect == tiles[j];
      var k :| 0 <= k < |es| && es[k] == e;
      assert HasPoint(rs[k], px, py);
    }
  }
}
