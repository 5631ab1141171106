/**
 * The scanline region algebra of libfreerdp-utils/region.c.
 *
 * A region is a list of boxes kept in y-x banded order: boxes are grouped
 * into bands that share the same top and bottom edge, bands are ordered
 * from top to bottom and do not overlap vertically, and inside a band the
 * boxes run from left to right. A cached `extents` box bounds them all.
 * Union and intersection walk the two operands band by band, emit boxes
 * for the parts where only one operand is present ("non-overlap") and for
 * the parts where both are ("overlap"), and coalesce vertically adjacent
 * bands whose boxes have identical horizontal spans ("combine").
 *
 * Box coordinates are stored in 16 bits by the source; the model keeps them
 * as mathematical integers and truncates only where a rectangle is turned
 * into a box.
 */
module Region {
  import opened Common

  /** Half-open box [x1, x2) x [y1, y2); fields in the order of rdpBox. */
  datatype Box = Box(x1: int, x2: int, y1: int, y2: int)

  /** Origin and size, as rdpRect. */
  datatype Rect = Rect(x: u16, y: u16, width: u16, height: u16)

  /** The boxes in banded order and the cached bounding box. */
  datatype Region = Region(boxes: seq<Box>, extents: Box)

  datatype OpKind = UnionOp | IntersectOp

  const ZeroBox := Box(0, 0, 0, 0)

  function Min(a: int, b: int): int { if a < b then a else b }
  function Max(a: int, b: int): int { if a > b then a else b }

  // -----------------------------------------------------------------------
  // Meaning of a box list: the set of points it covers
  // -----------------------------------------------------------------------

  predicate InBox(b: Box, x: int, y: int) { b.x1 <= x < b.x2 && b.y1 <= y < b.y2 }

  /** Point (x, y) lies in some box of the list. */
  predicate Covers(bs: seq<Box>, x: int, y: int)
  {
    exists k :: 0 <= k < |bs| && InBox(bs[k], x, y)
  }

  /** Column x lies in the horizontal span of some box of the list. */
  predicate InSpan(bs: seq<Box>, x: int)
  {
    exists k :: 0 <= k < |bs| && bs[k].x1 <= x < bs[k].x2
  }

  // -----------------------------------------------------------------------
  // Band structure
  // -----------------------------------------------------------------------

  predicate WfBox(b: Box) { b.x1 < b.x2 && b.y1 < b.y2 }

  /** b may directly follow a: same band and to the right, or a lower band. */
  predicate Follows(a: Box, b: Box)
  {
    (a.y1 == b.y1 && a.y2 == b.y2 && a.x2 <= b.x1) || a.y2 <= b.y1
  }

  /** The y-x banded form every region built by this library has. */
  predicate Banded(bs: seq<Box>)
  {
    (forall k :: 0 <= k < |bs| ==> WfBox(bs[k])) &&
    (forall k :: 0 < k < |bs| ==> Follows(bs[k - 1], bs[k]))
  }

  /** Componentwise hull of two boxes. */
  function Join(a: Box, b: Box): Box
  {
    Box(Min(a.x1, b.x1), Max(a.x2, b.x2), Min(a.y1, b.y1), Max(a.y2, b.y2))
  }

  /** Smallest box holding every box of a non-empty list. */
  function Hull(bs: seq<Box>): Box
    requires |bs| > 0
  {
    if |bs| == 1 then bs[0] else Join(bs[0], Hull(bs[1..]))
  }

  /**
   * Every box edge lies in 0..32767: the range in which the band walk's
   * `sint16` locals (ytop, ybot, the overlap's x1 and x2) hold an edge
   * unchanged.
   */
  predicate FitsSint16(r: Region)
  {
    forall k :: 0 <= k < |r.boxes| ==>
      0 <= r.boxes[k].x1 && r.boxes[k].x2 <= 0x7FFF && 0 <= r.boxes[k].y1 && r.boxes[k].y2 <= 0x7FFF
  }

  /** Well-formed region: banded, and the cached extents are exact when there are boxes. */
  predicate Valid(r: Region)
  {
    Banded(r.boxes) && (|r.boxes| > 0 ==> r.extents == Hull(r.boxes))
  }

  /** Index just past the run of boxes from i that share bs[i].y1: the band starting at i. */
  function BandEnd(bs: seq<Box>, i: nat): (e: nat)
    requires i <= |bs|
    ensures i <= e <= |bs|
    ensures i < |bs| ==> i < e
    ensures i < e < |bs| ==> bs[e].y1 != bs[i].y1
    ensures forall k :: i <= k < e ==> bs[k].y1 == bs[i].y1
    decreases |bs| - i
  {
    if i == |bs| then i
    else if i + 1 < |bs| && bs[i + 1].y1 == bs[i].y1 then BandEnd(bs, i + 1)
    else i + 1
  }

  /** Start of the last band, found by walking back from box k. */
  function LastBandStart(bs: seq<Box>, k: nat): nat
    requires k < |bs|
  {
    if k == 0 || bs[k - 1].y1 != bs[k].y1 then k else LastBandStart(bs, k - 1)
  }

  // -----------------------------------------------------------------------
  // Region primitives (region.c)
  // -----------------------------------------------------------------------

  /** RDP_REGION_EXTENTS_OVERLAP: the two boxes share an interior point. */
  predicate ExtentsOverlap(a: Box, b: Box)
  {
    a.x2 > b.x1 && a.x1 < b.x2 && a.y2 > b.y1 && a.y1 < b.y2
  }

  /** rdp_region_contains: r1 is a single box whose extents enclose r2's extents. */
  predicate Contains(r1: Region, r2: Region)
  {
    |r1.boxes| == 1 &&
    r1.extents.x1 <= r2.extents.x1 && r1.extents.y1 <= r2.extents.y1 &&
    r1.extents.x2 >= r2.extents.x2 && r1.extents.y2 >= r2.extents.y2
  }

  /** rdp_region_init: no boxes and all-zero extents. */
  function Init(): Region { Region([], ZeroBox) }

  /** The box a rectangle stands for; right and bottom edges are stored in 16 bits. */
  function RectBox(rect: Rect): Box
  {
    Box(rect.x, Trunc16(rect.x + rect.width), rect.y, Trunc16(rect.y + rect.height))
  }

  /** rdp_region_init_rect: an empty rectangle gives the empty region, any other one box. */
  function InitRect(rect: Rect): Region
  {
    if rect.width == 0 || rect.height == 0 then Init()
    else Region([RectBox(rect)], RectBox(rect))
  }

  /**
   * rdp_region_set_extents: all zero without boxes; otherwise the top of the
   * first box, the bottom of the last one, and the extreme left and right edges.
   */
  function SetExtents(bs: seq<Box>): Box
  {
    if |bs| == 0 then ZeroBox
    else Box(MinX1(bs), MaxX2(bs), bs[0].y1, bs[|bs| - 1].y2)
  }

  function MinX1(bs: seq<Box>): int
    requires |bs| > 0
  {
    if |bs| == 1 then bs[0].x1 else Min(bs[0].x1, MinX1(bs[1..]))
  }

  function MaxX2(bs: seq<Box>): int
    requires |bs| > 0
  {
    if |bs| == 1 then bs[0].x2 else Max(bs[0].x2, MaxX2(bs[1..]))
  }

  // -----------------------------------------------------------------------
  // Band callbacks
  // -----------------------------------------------------------------------

  /** rdp_region_union_non_overlap: the band's spans copied to rows [y1, y2). */
  function NonOverlap(band: seq<Box>, y1: int, y2: int): seq<Box>
  {
    seq(|band|, k requires 0 <= k < |band| => Box(band[k].x1, band[k].x2, y1, y2))
  }

  /**
   * rdp_region_merge: extend the last box when it lies in the same rows and
   * reaches the new span, otherwise append the span as a new box.
   */
  function Merge(out: seq<Box>, cur: Box, y1: int, y2: int): seq<Box>
  {
    if |out| != 0 && out[|out| - 1].y1 == y1 && out[|out| - 1].y2 == y2 && out[|out| - 1].x2 >= cur.x1 then
      var last := out[|out| - 1];
      if last.x2 < cur.x2 then out[..|out| - 1] + [Box(last.x1, cur.x2, y1, y2)] else out
    else out + [Box(cur.x1, cur.x2, y1, y2)]
  }

  /** rdp_region_union_overlap: the two bands' spans in order of left edge, through Merge. */
  function UnionOverlap(out: seq<Box>, b1: seq<Box>, b2: seq<Box>, y1: int, y2: int): seq<Box>
    decreases |b1| + |b2|
  {
    if |b1| > 0 && |b2| > 0 then
      if b1[0].x1 < b2[0].x1 then UnionOverlap(Merge(out, b1[0], y1, y2), b1[1..], b2, y1, y2)
      else UnionOverlap(Merge(out, b2[0], y1, y2), b1, b2[1..], y1, y2)
    else if |b1| > 0 then UnionOverlap(Merge(out, b1[0], y1, y2), b1[1..], b2, y1, y2)
    else if |b2| > 0 then UnionOverlap(Merge(out, b2[0], y1, y2), b1, b2[1..], y1, y2)
    else out
  }

  /**
   * rdp_region_intersect_overlap: the non-empty pairwise intersections of the
   * two bands' spans, walking both bands by right edge.
   */
  function IntersectRow(b1: seq<Box>, b2: seq<Box>, y1: int, y2: int): seq<Box>
    decreases |b1| + |b2|
  {
    if |b1| == 0 || |b2| == 0 then []
    else
      var x1 := Max(b1[0].x1, b2[0].x1);
      var x2 := Min(b1[0].x2, b2[0].x2);
      var piece := if x1 < x2 then [Box(x1, x2, y1, y2)] else [];
      if b1[0].x2 < b2[0].x2 then piece + IntersectRow(b1[1..], b2, y1, y2)
      else if b2[0].x2 < b1[0].x2 then piece + IntersectRow(b1, b2[1..], y1, y2)
      else piece + IntersectRow(b1[1..], b2[1..], y1, y2)
  }

  /** The overlap callback of the operation. */
  function Overlap(kind: OpKind, out: seq<Box>, b1: seq<Box>, b2: seq<Box>, y1: int, y2: int): seq<Box>
  {
    match kind
    case UnionOp => UnionOverlap(out, b1, b2, y1, y2)
    case IntersectOp => out + IntersectRow(b1, b2, y1, y2)
  }

  /** The non-overlap callback: union copies the band, intersection has none. */
  function NonOverlapEmit(kind: OpKind, out: seq<Box>, band: seq<Box>, y1: int, y2: int): seq<Box>
  {
    match kind
    case UnionOp => out + NonOverlap(band, y1, y2)
    case IntersectOp => out
  }

  // -----------------------------------------------------------------------
  // Band coalescing
  // -----------------------------------------------------------------------

  datatype Combined = Combined(boxes: seq<Box>, prevBand: nat)

  /** Equal horizontal spans, box by box. */
  predicate SameSpans(prev: seq<Box>, cur: seq<Box>)
  {
    |prev| == |cur| &&
    forall k :: 0 <= k < |prev| ==> prev[k].x1 == cur[k].x1 && prev[k].x2 == cur[k].x2
  }

  /** Each previous box takes the bottom edge of the box below it. */
  function Stretch(prev: seq<Box>, cur: seq<Box>): seq<Box>
    requires |prev| == |cur|
  {
    seq(|prev|, k requires 0 <= k < |prev| => Box(prev[k].x1, prev[k].x2, prev[k].y1, cur[k].y2))
  }

  /**
   * rdp_region_combine: when the band at curStart has as many boxes as the
   * band [prevStart, curStart), touches it from below and repeats its spans,
   * the previous band grows down over it and the band's boxes are removed.
   * Returns the boxes and the start of the band to combine with next.
   */
  function Combine(bs: seq<Box>, prevStart: nat, curStart: nat): Combined
  {
    if !(prevStart <= curStart < |bs|) then Combined(bs, curStart)
    else
      var curEnd := BandEnd(bs, curStart);
      var n := curEnd - curStart;
      var last := if curEnd != |bs| then LastBandStart(bs, |bs| - 1) else curStart;
      if n == curStart - prevStart && bs[prevStart].y2 == bs[curStart].y1 &&
         SameSpans(bs[prevStart..curStart], bs[curStart..curEnd])
      then
        Combined(bs[..prevStart] + Stretch(bs[prevStart..curStart], bs[curStart..curEnd]) + bs[curEnd..],
                 if curEnd == |bs| then prevStart else last)
      else Combined(bs, last)
  }

  // -----------------------------------------------------------------------
  // The band walk (rdp_region_op)
  // -----------------------------------------------------------------------

  /** Walk state: output so far, band to combine with, band cursors, scan line. */
  datatype OpState = OpState(out: seq<Box>, prevBand: nat, i1: nat, i2: nat, ybot: int)

  /** Coalesce what a callback appended after `before` boxes with the previous band. */
  function CombineNew(out: seq<Box>, prevBand: nat, before: nat): Combined
  {
    if |out| != before then Combine(out, prevBand, before) else Combined(out, prevBand)
  }

  /** One turn of the do-while loop of rdp_region_op. */
  function OpStep(kind: OpKind, r1: seq<Box>, r2: seq<Box>, st: OpState): (r: OpState)
    requires st.i1 < |r1| && st.i2 < |r2|
    ensures st.i1 <= r.i1 <= |r1| && st.i2 <= r.i2 <= |r2|
    ensures r.i1 + r.i2 > st.i1 + st.i2
  {
    var a := r1[st.i1];
    var b := r2[st.i2];
    var e1 := BandEnd(r1, st.i1);
    var e2 := BandEnd(r2, st.i2);
    var out1 :=
      if a.y1 < b.y1 then
        var top := Max(a.y1, st.ybot);
        var bot := Min(a.y2, b.y1);
        if top != bot then NonOverlapEmit(kind, st.out, r1[st.i1..e1], top, bot) else st.out
      else if b.y1 < a.y1 then
        var top := Max(b.y1, st.ybot);
        var bot := Min(b.y2, a.y1);
        if top != bot then NonOverlapEmit(kind, st.out, r2[st.i2..e2], top, bot) else st.out
      else st.out;
    var ytop := if a.y1 < b.y1 then b.y1 else a.y1;
    var c1 := CombineNew(out1, st.prevBand, |st.out|);
    var ybot := Min(a.y2, b.y2);
    var out3 := if ybot > ytop then Overlap(kind, c1.boxes, r1[st.i1..e1], r2[st.i2..e2], ytop, ybot) else c1.boxes;
    var c2 := CombineNew(out3, c1.prevBand, |c1.boxes|);
    OpState(c2.boxes, c2.prevBand,
            if a.y2 == ybot then e1 else st.i1,
            if b.y2 == ybot then e2 else st.i2,
            ybot)
  }

  /** The do-while loop: runs until one operand's bands are used up. */
  function OpLoop(kind: OpKind, r1: seq<Box>, r2: seq<Box>, st: OpState): (r: OpState)
    requires st.i1 < |r1| && st.i2 < |r2|
    ensures r.i1 == |r1| || r.i2 == |r2|
    decreases |r1| - st.i1 + |r2| - st.i2
  {
    var next := OpStep(kind, r1, r2, st);
    if next.i1 < |r1| && next.i2 < |r2| then OpLoop(kind, r1, r2, next) else next
  }

  /** Remaining bands from i, each clipped from above at the scan line. */
  function Tail(r: seq<Box>, i: nat, ybot: int): seq<Box>
    requires i <= |r|
    decreases |r| - i
  {
    if i == |r| then []
    else
      var e := BandEnd(r, i);
      NonOverlap(r[i..e], Max(r[i].y1, ybot), r[i].y2) + Tail(r, e, ybot)
  }

  /** rdp_region_op on two non-empty operands: the boxes of the result. */
  function Op(kind: OpKind, reg1: Region, reg2: Region): seq<Box>
    requires |reg1.boxes| > 0 && |reg2.boxes| > 0
  {
    var r1 := reg1.boxes;
    var r2 := reg2.boxes;
    var st := OpLoop(kind, r1, r2, OpState([], 0, 0, 0, Min(reg1.extents.y1, reg2.extents.y1)));
    var tail :=
      if kind == IntersectOp then []
      else if st.i1 < |r1| then Tail(r1, st.i1, st.ybot)
      else if st.i2 < |r2| then Tail(r2, st.i2, st.ybot)
      else [];
    CombineNew(st.out + tail, st.prevBand, |st.out|).boxes
  }

  // -----------------------------------------------------------------------
  // Exported operations
  // -----------------------------------------------------------------------

  /**
   * rdp_region_union. `sameObject` says that both operands are the same
   * region object, which the source detects by pointer comparison.
   */
  function Union(r1: Region, r2: Region, sameObject: bool): Region
    requires sameObject ==> r1 == r2
  {
    if sameObject || |r1.boxes| == 0 then r2
    else if |r2.boxes| == 0 then r1
    else if Contains(r1, r2) then r1
    else if Contains(r2, r1) then r2
    else
      Region(Op(UnionOp, r1, r2),
             Box(Min(r1.extents.x1, r2.extents.x1), Max(r1.extents.x2, r2.extents.x2),
                 Min(r1.extents.y1, r2.extents.y1), Max(r1.extents.y2, r2.extents.y2)))
  }

  datatype Outcome = Outcome(ok: bool, region: Region)

  /**
   * rdp_region_union_rect: an empty rectangle leaves the destination as it
   * was and reports failure; otherwise the rectangle's box united with src.
   */
  function UnionRect(rect: Rect, src: Region, dst: Region): Outcome
  {
    if rect.width == 0 || rect.height == 0 then Outcome(false, dst)
    else Outcome(true, Union(Region([RectBox(rect)], RectBox(rect)), src, false))
  }

  /**
   * rdp_region_intersect: with an empty operand or disjoint extents the
   * destination loses its boxes (its extents are left as they were) and the
   * call reports failure; otherwise the band walk and fresh extents.
   */
  function Intersect(r1: Region, r2: Region, dst: Region): Outcome
  {
    if |r1.boxes| == 0 || |r2.boxes| == 0 || !ExtentsOverlap(r1.extents, r2.extents) then
      Outcome(false, Region([], dst.extents))
    else
      var bs := Op(IntersectOp, r1, r2);
      Outcome(true, Region(bs, SetExtents(bs)))
  }
}
