/**
 * The RDVH_OPT tileset pass (rfx_cvt_rdvh_opt_process_message_tileset).
 * Besides the tiles to decode it hands the driver the rects to copy from
 * the previous frame: what the previous frame on the same display drew
 * and this frame does not draw again. Each display keeps two static
 * tables of clipped tiles and uses them in turn; this state, the
 * g_idx, g_num_rects_tile and g_rects_tile statics, is explicit here.
 */
module CvtOpt {
  import opened Common
  import RfxParse
  import opened CvtLayout
  import opened CvtGeometry
  import opened CvtMerge
  import opened CvtTileset

  /**
   * One static table g_rects_tile[d][k], slot number to entry. Slots never
   * written hold zeros, as static storage starts zeroed.
   */
  type Table = map<nat, CvtRect>

  const ZeroRect: Rect := RfxParse.RfxRect(0, 0, 0, 0)

  function Slot(t: Table, k: nat): CvtRect
  {
    if k in t then t[k] else CvtRect(ZeroRect, ZeroRect)
  }

  /** The table with es written to consecutive slots from slot at. */
  function Put(t: Table, at: nat, es: seq<CvtRect>): (r: Table)
    ensures forall k: nat :: at <= k < at + |es| ==> Slot(r, k) == es[k - at]
    ensures forall k: nat :: k < at || at + |es| <= k ==> Slot(r, k) == Slot(t, k)
    decreases |es|
  {
    if |es| == 0 then t else Put(t[at := es[0]], at + 1, es[1..])
  }

  /** The entries in slots 0 to n - 1. */
  function Listed(t: Table, n: nat): (es: seq<CvtRect>)
    ensures |es| == n
    ensures forall k :: 0 <= k < n ==> es[k] == Slot(t, k)
  {
    seq(n, k requires 0 <= k < n => Slot(t, k))
  }

  /**
   * What one display keeps between frames: which of its two tables is
   * the current one (g_idx), how many entries the last frame saved
   * (g_num_rects_tile), and the two tables.
   */
  datatype Buffers = Buffers(idx: nat, count: nat, table0: Table, table1: Table)

  function TableOf(b: Buffers, k: nat): Table
  {
    if k == 0 then b.table0 else b.table1
  }

  function WithTable(b: Buffers, k: nat, t: Table): (r: Buffers)
    requires k < 2
    ensures TableOf(r, k) == t
    ensures forall j: nat :: j < 2 && j != k ==> TableOf(r, j) == TableOf(b, j)
  {
    if k == 0 then b.(table0 := t) else b.(table1 := t)
  }

  /** The state of both displays. */
  datatype OptState = OptState(displays: seq<Buffers>)

  predicate Valid(s: OptState)
  {
    |s.displays| == 2 && forall d :: 0 <= d < 2 ==> s.displays[d].idx < 2
  }

  /** Before the first frame: table 0 current, nothing saved, all slots zero. */
  function Initial(): (s: OptState)
    ensures Valid(s)
  {
    var b := Buffers(0, 0, map[], map[]);
    OptState([b, b])
  }

  /** The entries the last frame on display d saved: the comparison list for the next frame there. */
  function Previous(s: OptState, d: nat): seq<CvtRect>
    requires Valid(s) && d < 2
  {
    var b := s.displays[d];
    Listed(TableOf(b, 1 - b.idx), b.count)
  }

  // -----------------------------------------------------------------------
  // Saving this frame's clipped tiles
  // -----------------------------------------------------------------------

  /**
   * The clipped tiles saved while tiles are read: tile i's first clip in
   * slot i, and the further clips of all tiles in consecutive slots from
   * slot numTiles on. The two ranges do not meet, so the order in which
   * the source interleaves the writes does not matter.
   */
  function SaveClips(t: Table, tiles: seq<Rect>, numTiles: nat, msg: seq<Rect>): Table
    requires |tiles| <= numTiles
  {
    Put(Put(t, 0, Firsts(tiles, msg)), numTiles, Mores(tiles, msg))
  }

  /**
   * When every block was a tile, the saved entries, read back in slot
   * order up to the saved count, are exactly the clip list of the
   * unmerged tiles.
   */
  lemma {:induction false} SavedIsClipList(t: Table, tiles: seq<Rect>, msg: seq<Rect>)
    ensures Listed(SaveClips(t, tiles, |tiles|, msg), ClipCount(tiles, msg)) == ClipList(tiles, msg)
  {
    var saved := SaveClips(t, tiles, |tiles|, msg);
    var fs := Firsts(tiles, msg);
    var ms := Mores(tiles, msg);
    var es := ClipList(tiles, msg);
    var ls := Listed(saved, ClipCount(tiles, msg));
    forall k | 0 <= k < |es| ensures ls[k] == es[k] {
      if k < |fs| {
        assert Slot(Put(t, 0, fs), k) == fs[k];
      } else {
        assert Slot(saved, k) == ms[k - |fs|];
      }
    }
  }

  // -----------------------------------------------------------------------
  // What to copy forward
  // -----------------------------------------------------------------------

  /** Some entry of cur is the same as e by rfx_cvt_rects_compare. */
  predicate Matched(e: CvtRect, cur: seq<CvtRect>)
  {
    exists j :: 0 <= j < |cur| && Same(e, cur[j])
  }

  /** The previous frame's entries that no entry saved by this frame matches, in their order. */
  function CopyDiff(prev: seq<CvtRect>, cur: seq<CvtRect>): (r: seq<CvtRect>)
    ensures |r| <= |prev|
  {
    if |prev| == 0 then []
    else
      var init := CopyDiff(prev[..|prev| - 1], cur);
      var e := prev[|prev| - 1];
      if Matched(e, cur) then init else init + [e]
  }

  /** An entry is copied exactly when the previous frame saved it and nothing this frame saved matches it. */
  lemma {:induction false} CopyDiffExact(prev: seq<CvtRect>, cur: seq<CvtRect>, e: CvtRect)
    ensures e in CopyDiff(prev, cur) <==> e in prev && !Matched(e, cur)
    decreases |prev|
  {
    if |prev| > 0 {
      var init := prev[..|prev| - 1];
      CopyDiffExact(init, cur, e);
      assert prev == init + [prev[|prev| - 1]];
    }
  }

  /** The depth of the driver's 2D command queue: at most this many copy rects are sent. */
  const MAX_COPY_RECTS: nat := 160

  /** One entry copying the whole screen of one display. */
  function FullCanvas(width: u16, height: u16): CvtRect
  {
    var r := RfxParse.RfxRect(0, 0, width, height);
    CvtRect(r, r)
  }

  /**
   * The copy rects handed to the driver: the entries to copy, merged and
   * folded; more than MAX_COPY_RECTS of them become one copy of the whole
   * screen.
   */
  function CopyRects(copy: seq<CvtRect>, width: u16, height: u16): (r: seq<CvtRect>)
    ensures |r| <= MAX_COPY_RECTS
    ensures |copy| == 0 ==> r == []
    ensures |copy| > 0 && |TileMerge(copy)| == 0 ==> r == []
    ensures |copy| > 0 && |TileMerge(copy)| > 0 && |CopyOptimize(TileMerge(copy))| > MAX_COPY_RECTS ==>
      r == [FullCanvas(width, height)]
    ensures |copy| > 0 && |TileMerge(copy)| > 0 && |CopyOptimize(TileMerge(copy))| <= MAX_COPY_RECTS ==>
      r == CopyOptimize(TileMerge(copy))
  {
    if |copy| == 0 then []
    else
      var merged := TileMerge(copy);
      if |merged| == 0 then []
      else
        var folded := CopyOptimize(merged);
        if |folded| > MAX_COPY_RECTS then [FullCanvas(width, height)] else folded
  }

  /** The pixel lies on one display's screen. */
  predicate OnScreen(width: u16, height: u16, px: int, py: int)
  {
    0 <= px < width && 0 <= py < height
  }

  /** Merging and folding the entries to copy keeps every pixel they draw. */
  lemma {:induction false} MergedCopyCovers(copy: seq<CvtRect>, px: int, py: int)
    requires forall k :: 0 <= k < |copy| ==> TileSized(copy[k].rect) && Fits(copy[k].rect)
    requires DrawnBy(copy, px, py)
    ensures |TileMerge(copy)| > 0 && DrawnBy(CopyOptimize(TileMerge(copy)), px, py)
  {
    var k :| 0 <= k < |copy| && Draws(copy[k], px, py);
    assert Shows(copy[k], true, px, py);
    var merged := TileMerge(copy);
    TileMergeCovers(copy, px, py);
    var j :| 0 <= j < |merged| && Shows(merged[j], true, px, py);
    assert Draws(merged[j], px, py);
    CopyOptimizeCovers(merged, px, py);
  }

  /**
   * Nothing to copy is lost: every on-screen pixel an entry to copy draws
   * is drawn by the copy rects, when the entries are whole tiles within
   * the 16-bit space.
   */
  lemma {:induction false} CopyRectsCover(copy: seq<CvtRect>, width: u16, height: u16, px: int, py: int)
    requires forall k :: 0 <= k < |copy| ==> TileSized(copy[k].rect) && Fits(copy[k].rect)
    requires OnScreen(width, height, px, py)
    ensures DrawnBy(copy, px, py) ==> DrawnBy(CopyRects(copy, width, height), px, py)
  {
    if DrawnBy(copy, px, py) {
      MergedCopyCovers(copy, px, py);
      var r := CopyRects(copy, width, height);
      if |CopyOptimize(TileMerge(copy))| > MAX_COPY_RECTS {
        assert r[0] == FullCanvas(width, height);
        assert Draws(r[0], px, py);
      }
    }
  }

  // -----------------------------------------------------------------------
  // The pass
  // -----------------------------------------------------------------------

  /** The display a frame is decoded for. */
  function FrameDisplay(f: Frame): (d: nat)
    ensures d < 2
  {
    DecodeDisplay(f.layout, f.destLeft, f.destTop, f.width, f.height)
  }

  /** The frame's display's current table once this frame's clipped tiles are saved in it. */
  function CurTable(s: OptState, f: Frame, t: TilesetBody): Table
    requires Valid(s)
  {
    var b := s.displays[FrameDisplay(f)];
    SaveClips(TableOf(b, b.idx), TileRects(TileRun(t.blocks)), |t.blocks|, f.rects)
  }

  /** How many entries the frame saves: the length of the clip list of its tiles. */
  function SavedCount(f: Frame, t: TilesetBody): nat
  {
    ClipCount(TileRects(TileRun(t.blocks)), f.rects)
  }

  /** The previous frame's entries to copy forward on the frame's display. */
  function CopyList(s: OptState, f: Frame, t: TilesetBody): seq<CvtRect>
    requires Valid(s)
  {
    CopyDiff(Previous(s, FrameDisplay(f)), Listed(CurTable(s, f, t), SavedCount(f, t)))
  }

  /**
   * The state after a frame on the frame's display: this frame's clipped
   * tiles saved in the current table, the saved count recorded and the
   * other table made current; the other display is untouched.
   */
  function OptAdvance(s: OptState, f: Frame, t: TilesetBody): (s': OptState)
    requires Valid(s)
    ensures Valid(s')
    ensures var d := FrameDisplay(f);
      var b := s.displays[d];
      var b' := s'.displays[d];
      s'.displays[1 - d] == s.displays[1 - d] &&
      b'.idx == 1 - b.idx && TableOf(b', b'.idx) == TableOf(b, b'.idx) &&
      TableOf(b', b.idx) == CurTable(s, f, t) && b'.count == SavedCount(f, t)
  {
    var d := FrameDisplay(f);
    var b := s.displays[d];
    var b' := WithTable(b, b.idx, CurTable(s, f, t)).(idx := 1 - b.idx, count := SavedCount(f, t));
    OptState(s.displays[d := b'])
  }

  /**
   * The RDVH_OPT pass on one frame. It returns before touching the state
   * in the same cases as the plain pass. Otherwise it saves this frame's
   * clipped tiles in the display's current table, compares the previous
   * table against them, records the saved count and makes the other
   * table current for the next frame on that display.
   */
  function ProcessOpt(s: OptState, f: Frame, t: TilesetBody): (r: (Option<DecodeJob>, OptState))
    requires Valid(s) && Shaped(t)
    ensures Valid(r.1)
    ensures r.0.None? <==> Refused(t) || BadQuants(t, TileRun(t.blocks))
    ensures r.0.None? ==> r.1 == s
    ensures r.0.Some? ==> r.1 == OptAdvance(s, f, t)
    ensures r.0.Some? ==>
      var d := FrameDisplay(f);
      var b := s.displays[d];
      var b' := r.1.displays[d];
      r.1.displays[1 - d] == s.displays[1 - d] &&
      b'.idx == 1 - b.idx && TableOf(b', b'.idx) == TableOf(b, b'.idx) &&
      TableOf(b', b.idx) == CurTable(s, f, t) && b'.count == SavedCount(f, t) &&
      |r.0.value.copyRects| <= MAX_COPY_RECTS &&
      r.0.value.copyRects == CopyRects(CopyList(s, f, t), f.width, f.height) &&
      r.0.value.(copyRects := []) == ProcessTileset(f, t).value
  {
    if Refused(t) then (None, s)
    else
      var run := TileRun(t.blocks);
      if BadQuants(t, run) then (None, s)
      else
        var job := DecodeJob(FrameDisplay(f), f.destLeft, f.destTop, FrameQuants(t, run), |t.blocks|, Sizes(run),
                             DataSize(run), ClipList(BlitRects(TileRects(run)), f.rects),
                             CopyRects(CopyList(s, f, t), f.width, f.height));
        (Some(job), OptAdvance(s, f, t))
  }

  /**
   * The RDVH_OPT pass as written: the same quant check with `>` and the
   * same fallback entries for the tiles handed to the driver as the
   * plain pass as written (the saved table's fallback entries do carry
   * their tile). The state moves on exactly as in the corrected pass
   * whenever a job is handed over.
   */
  function ProcessOptAsWritten(s: OptState, f: Frame, t: TilesetBody, beyond: seq<u8>, stale: seq<Rect>)
    : (r: (Option<DecodeJob>, OptState))
    requires Valid(s) && Shaped(t) && |beyond| == 5
    ensures Valid(r.1)
    ensures r.0.None? <==> Refused(t) || BadQuantsAsWritten(t, TileRun(t.blocks))
    ensures r.0.None? ==> r.1 == s
    ensures r.0.Some? ==>
      r.1 == OptAdvance(s, f, t) &&
      |r.0.value.copyRects| <= MAX_COPY_RECTS &&
      r.0.value.copyRects == CopyRects(CopyList(s, f, t), f.width, f.height) &&
      r.0.value.(copyRects := []) == ProcessTilesetAsWritten(f, t, beyond, stale).value
  {
    if Refused(t) then (None, s)
    else
      var run := TileRun(t.blocks);
      if BadQuantsAsWritten(t, run) then (None, s)
      else
        var bs := BlitRects(TileRects(run));
        var job := DecodeJob(FrameDisplay(f), f.destLeft, f.destTop, FrameQuantsAsWritten(t, run, beyond),
                             |t.blocks|, Sizes(run), DataSize(run),
                             ClipListAsWritten(bs, f.rects, StaleRects(stale, |bs|)),
                             CopyRects(CopyList(s, f, t), f.width, f.height));
        (Some(job), OptAdvance(s, f, t))
  }

  /**
   * The OPT pass as written and the corrected one agree, job and state,
   * whenever the intended quant check passes and every merged tile
   * overlaps some message rect.
   */
  lemma {:induction false} OptAsWrittenAgrees(s: OptState, f: Frame, t: TilesetBody, beyond: seq<u8>, stale: seq<Rect>)
    requires Valid(s) && Shaped(t) && |beyond| == 5 && !BadQuants(t, TileRun(t.blocks))
    requires var bs := BlitRects(TileRects(TileRun(t.blocks)));
      forall i :: 0 <= i < |bs| ==> |Clips(bs[i], f.rects)| > 0
    ensures ProcessOptAsWritten(s, f, t, beyond, stale) == ProcessOpt(s, f, t)
  {
    TilesetAsWrittenAgrees(f, t, beyond, stale);
  }

  /**
   * A first tile whose Y index equals numQuants: the corrected pass
   * leaves the state alone, the pass as written hands the driver Y quants
   * read past the table and makes the display's other table current.
   */
  lemma {:induction false} OptAsWrittenOverreads(s: OptState, f: Frame, t: TilesetBody, beyond: seq<u8>, stale: seq<Rect>)
    requires Valid(s) && Shaped(t) && |beyond| == 5 && !Refused(t)
    requires var run := TileRun(t.blocks);
      |run| > 0 && run[0].quantIdxY == t.numQuants &&
      run[0].quantIdxU < t.numQuants && run[0].quantIdxV < t.numQuants
    ensures ProcessOpt(s, f, t) == (None, s)
    ensures var r := ProcessOptAsWritten(s, f, t, beyond, stale);
      var d := FrameDisplay(f);
      r.0.Some? && r.1.displays[d].idx == 1 - s.displays[d].idx &&
      forall k :: 0 <= k < 5 ==> r.0.value.quants[k] == Swap(beyond[4 - k])
  {
    TilesetAsWrittenOverreads(f, t, beyond, stale);
  }

  /**
   * The double buffer hands over: after a frame on display d in which
   * every block was a tile, the list the next frame there compares
   * against is exactly this frame's clip list of unmerged tiles.
   */
  lemma {:induction false} HandOff(s: OptState, f: Frame, t: TilesetBody)
    requires Valid(s) && Shaped(t)
    requires ProcessOpt(s, f, t).0.Some?
    requires |TileRun(t.blocks)| == |t.blocks|
    ensures Previous(ProcessOpt(s, f, t).1, FrameDisplay(f)) == ClipList(TileRects(TileRun(t.blocks)), f.rects)
  {
    var b := s.displays[FrameDisplay(f)];
    SavedIsClipList(TableOf(b, b.idx), TileRects(TileRun(t.blocks)), f.rects);
  }

  /**
   * Every on-screen pixel drawn by a previously saved entry that no entry
   * saved now matches is drawn by the copy rects built from the copy
   * list, when the previous entries are whole tiles within the 16-bit
   * space.
   */
  lemma {:induction false} CopyListCovers(s: OptState, f: Frame, t: TilesetBody, e: CvtRect, px: int, py: int)
    requires Valid(s)
    requires var prev := Previous(s, FrameDisplay(f));
      forall k :: 0 <= k < |prev| ==> TileSized(prev[k].rect) && Fits(prev[k].rect)
    requires OnScreen(f.width, f.height, px, py) && Draws(e, px, py)
    requires e in Previous(s, FrameDisplay(f)) && !Matched(e, Listed(CurTable(s, f, t), SavedCount(f, t)))
    ensures DrawnBy(CopyRects(CopyList(s, f, t), f.width, f.height), px, py)
  {
    var prev := Previous(s, FrameDisplay(f));
    var cur := Listed(CurTable(s, f, t), SavedCount(f, t));
    var copy := CopyList(s, f, t);
    CopyDiffExact(prev, cur, e);
    var k :| 0 <= k < |copy| && copy[k] == e;
    assert DrawnBy(copy, px, py);
    forall j | 0 <= j < |copy| ensures TileSized(copy[j].rect) && Fits(copy[j].rect) {
      CopyDiffExact(prev, cur, copy[j]);
    }
    CopyRectsCover(copy, f.width, f.height, px, py);
  }

  /**
   * What the previous frame on the display drew and this frame does not
   * draw again is copied: the job's copy rects draw every such pixel.
   */
  lemma {:induction false} OptCopiesUnmatched(s: OptState, f: Frame, t: TilesetBody, e: CvtRect, px: int, py: int)
    requires Valid(s) && Shaped(t)
    requires ProcessOpt(s, f, t).0.Some?
    requires var prev := Previous(s, FrameDisplay(f));
      forall k :: 0 <= k < |prev| ==> TileSized(prev[k].rect) && Fits(prev[k].rect)
    requires OnScreen(f.width, f.height, px, py) && Draws(e, px, py)
    requires e in Previous(s, FrameDisplay(f)) && !Matched(e, Listed(CurTable(s, f, t), SavedCount(f, t)))
    ensures DrawnBy(ProcessOpt(s, f, t).0.value.copyRects, px, py)
  {
    CopyListCovers(s, f, t, e, px, py);
  }
}
