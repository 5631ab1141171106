/**
 * What the exported region operations promise: union and intersection
 * cover exactly the union and intersection of their operands' points, and
 * they keep regions well formed (banded, with exact extents).
 */
module RegionSound {
  import opened Common
  import opened Region
  import opened RegionBands
  import opened RegionRows
  import opened RegionWalk

  // -----------------------------------------------------------------------
  // The hull of a box list
  // -----------------------------------------------------------------------

  /** Every box lies inside the hull. */
  lemma {:induction false} HullContains(bs: seq<Box>, k: nat)
    requires k < |bs|
    ensures Hull(bs).x1 <= bs[k].x1 && bs[k].x2 <= Hull(bs).x2
    ensures Hull(bs).y1 <= bs[k].y1 && bs[k].y2 <= Hull(bs).y2
  {
    if |bs| > 1 && k > 0 {
      HullContains(bs[1..], k - 1);
      assert bs[1..][k - 1] == bs[k];
    }
  }

  /** Each edge of the hull is an edge of some box. */
  lemma {:induction false} HullAttained(bs: seq<Box>)
    requires |bs| > 0
    ensures exists k :: 0 <= k < |bs| && bs[k].x1 == Hull(bs).x1
    ensures exists k :: 0 <= k < |bs| && bs[k].x2 == Hull(bs).x2
    ensures exists k :: 0 <= k < |bs| && bs[k].y1 == Hull(bs).y1
    ensures exists k :: 0 <= k < |bs| && bs[k].y2 == Hull(bs).y2
  {
    if |bs| == 1 {
      assert bs[0].x1 == Hull(bs).x1 && bs[0].x2 == Hull(bs).x2;
      assert bs[0].y1 == Hull(bs).y1 && bs[0].y2 == Hull(bs).y2;
    } else {
      var t := bs[1..];
      HullAttained(t);
      var h := Hull(bs);
      if h.x1 != bs[0].x1 {
        var k :| 0 <= k < |t| && t[k].x1 == Hull(t).x1;
        assert bs[k + 1] == t[k];
      }
      if h.x2 != bs[0].x2 {
        var k :| 0 <= k < |t| && t[k].x2 == Hull(t).x2;
        assert bs[k + 1] == t[k];
      }
      if h.y1 != bs[0].y1 {
        var k :| 0 <= k < |t| && t[k].y1 == Hull(t).y1;
        assert bs[k + 1] == t[k];
      }
      if h.y2 != bs[0].y2 {
        var k :| 0 <= k < |t| && t[k].y2 == Hull(t).y2;
        assert bs[k + 1] == t[k];
      }
    }
  }

  lemma {:induction false} HullConcat(a: seq<Box>, b: seq<Box>)
    requires |a| > 0 && |b| > 0
    ensures Hull(a + b) == Join(Hull(a), Hull(b))
  {
    var s := a + b;
    assert s[0] == a[0];
    if |a| == 1 {
      assert s[1..] == b;
    } else {
      assert s[1..] == a[1..] + b;
      HullConcat(a[1..], b);
    }
  }

  predicate AllWf(bs: seq<Box>)
  {
    forall k :: 0 <= k < |bs| ==> WfBox(bs[k])
  }

  /** If a covers every point b covers, a's hull encloses b's. */
  lemma {:induction false} HullMonotone(a: seq<Box>, b: seq<Box>)
    requires |a| > 0 && |b| > 0 && AllWf(b)
    requires forall x, y :: Covers(b, x, y) ==> Covers(a, x, y)
    ensures Hull(a).x1 <= Hull(b).x1 && Hull(b).x2 <= Hull(a).x2
    ensures Hull(a).y1 <= Hull(b).y1 && Hull(b).y2 <= Hull(a).y2
  {
    HullAttained(b);
    var kx1 :| 0 <= kx1 < |b| && b[kx1].x1 == Hull(b).x1;
    var kx2 :| 0 <= kx2 < |b| && b[kx2].x2 == Hull(b).x2;
    var ky1 :| 0 <= ky1 < |b| && b[ky1].y1 == Hull(b).y1;
    var ky2 :| 0 <= ky2 < |b| && b[ky2].y2 == Hull(b).y2;
    CoveredEdge(a, b, kx1, b[kx1].x1, b[kx1].y1);
    CoveredEdge(a, b, kx2, b[kx2].x2 - 1, b[kx2].y1);
    CoveredEdge(a, b, ky1, b[ky1].x1, b[ky1].y1);
    CoveredEdge(a, b, ky2, b[ky2].x1, b[ky2].y2 - 1);
  }

  /** A point of b's box k lies inside a's hull. */
  lemma {:induction false} CoveredEdge(a: seq<Box>, b: seq<Box>, k: nat, x: int, y: int)
    requires |a| > 0 && k < |b| && InBox(b[k], x, y)
    requires forall x, y :: Covers(b, x, y) ==> Covers(a, x, y)
    ensures Hull(a).x1 <= x < Hull(a).x2 && Hull(a).y1 <= y < Hull(a).y2
  {
    assert Covers(b, x, y);
    var j :| 0 <= j < |a| && InBox(a[j], x, y);
    HullContains(a, j);
  }

  /** Box lists covering the same points have the same hull. */
  lemma {:induction false} HullOfCoverage(a: seq<Box>, b: seq<Box>)
    requires |a| > 0 && |b| > 0 && AllWf(a) && AllWf(b)
    requires forall x, y :: Covers(a, x, y) <==> Covers(b, x, y)
    ensures Hull(a) == Hull(b)
  {
    HullMonotone(a, b);
    HullMonotone(b, a);
  }

  lemma {:induction false} MinX1Hull(bs: seq<Box>)
    requires |bs| > 0
    ensures MinX1(bs) == Hull(bs).x1 && MaxX2(bs) == Hull(bs).x2
  {
    if |bs| > 1 {
      MinX1Hull(bs[1..]);
    }
  }

  /** rdp_region_set_extents computes the exact hull of a banded list. */
  lemma {:induction false} SetExtentsHull(bs: seq<Box>)
    requires Banded(bs)
    ensures |bs| > 0 ==> SetExtents(bs) == Hull(bs)
  {
    if |bs| > 0 {
      MinX1Hull(bs);
      HullAttained(bs);
      HullContains(bs, 0);
      HullContains(bs, |bs| - 1);
      var k1 :| 0 <= k1 < |bs| && bs[k1].y1 == Hull(bs).y1;
      var k2 :| 0 <= k2 < |bs| && bs[k2].y2 == Hull(bs).y2;
      if 0 < k1 { BandedOrder(bs, 0, k1); }
      LastLowest(bs);
    }
  }

  /** A point of a valid region lies inside its extents. */
  lemma {:induction false} InsideExtents(r: Region, x: int, y: int)
    requires Valid(r) && Covers(r.boxes, x, y)
    ensures InBox(r.extents, x, y)
  {
    var k :| 0 <= k < |r.boxes| && InBox(r.boxes[k], x, y);
    HullContains(r.boxes, k);
  }

  // -----------------------------------------------------------------------
  // The band walk from start to finish
  // -----------------------------------------------------------------------

  /** A band list appended below the output and coalesced with it. */
  lemma {:induction false} AppendBelow(out: seq<Box>, prev: nat, ybot: int, tail: seq<Box>)
    requires Emitted(out, prev, ybot) && Banded(tail)
    requires |tail| > 0 ==> ybot <= tail[0].y1
    ensures Banded(CombineNew(out + tail, prev, |out|).boxes)
    ensures forall x, y :: Covers(CombineNew(out + tail, prev, |out|).boxes, x, y) <==>
      Covers(out, x, y) || Covers(tail, x, y)
  {
    var s := out + tail;
    forall x, y ensures Covers(s, x, y) <==> Covers(out, x, y) || Covers(tail, x, y) {
      CoversConcat(out, tail, x, y);
    }
    if |tail| == 0 {
      assert s == out;
    } else {
      assert s[|out|] == tail[0];
      if |out| > 0 {
        var last := out[|out| - 1];
        assert s[|out| - 1] == last && last.y1 < last.y2;
        assert out[prev].y1 == last.y1;
        BandEndPrefix(out, tail, prev);
        if 0 < prev {
          assert s[prev - 1] == out[prev - 1] && s[prev] == out[prev];
        }
      }
      BandedConcat(out, tail);
      CombineSound(s, prev, |out|);
    }
  }

  /** The remaining bands of one operand, clipped at the scan line. */
  lemma {:induction false} TailSound(r: seq<Box>, i: nat, ybot: int)
    requires Banded(r) && i <= |r| && BandStart(r, i) && (i < |r| ==> ybot < r[i].y2)
    ensures Banded(Tail(r, i, ybot))
    ensures i < |r| ==> |Tail(r, i, ybot)| > 0 && Tail(r, i, ybot)[0].y1 == Max(r[i].y1, ybot)
    ensures i == |r| ==> Tail(r, i, ybot) == []
    ensures forall x, y :: Covers(Tail(r, i, ybot), x, y) <==> ybot <= y && Covers(r[i..], x, y)
    decreases |r| - i
  {
    if i < |r| {
      var e := BandEnd(r, i);
      var top := Max(r[i].y1, ybot);
      BandSpans(r, i);
      BandFacts(r, i);
      var row := NonOverlap(Band(r, i), top, r[i].y2);
      NonOverlapRow(Band(r, i), top, r[i].y2);
      RowBanded(row, top, r[i].y2);
      if e < |r| {
        assert r[i].y2 <= r[e].y1 < r[e].y2;
      }
      TailSound(r, e, ybot);
      var rest := Tail(r, e, ybot);
      assert Tail(r, i, ybot) == row + rest;
      if |rest| > 0 {
        assert row[|row| - 1].y2 == r[i].y2;
      }
      BandedConcat(row, rest);
      forall x, y ensures Covers(row + rest, x, y) <==> ybot <= y && Covers(r[i..], x, y) {
        CoversConcat(row, rest, x, y);
        RowCovers(row, top, r[i].y2, x, y);
        if y < r[i].y2 {
          RemainingInBand(r, i, x, y);
        } else {
          RemainingPastBand(r, i, x, y);
        }
      }
    }
  }

  /** The walk starts with nothing emitted and the scan line at the top of both operands. */
  lemma {:induction false} WalkStart(kind: OpKind, reg1: Region, reg2: Region)
    requires Valid(reg1) && Valid(reg2) && |reg1.boxes| > 0 && |reg2.boxes| > 0
    ensures var st := OpState([], 0, 0, 0, Min(reg1.extents.y1, reg2.extents.y1));
      Inv(reg1.boxes, reg2.boxes, st) &&
      forall x, y :: Rem(kind, reg1.boxes, reg2.boxes, st, x, y) <==>
        Mix(kind, Covers(reg1.boxes, x, y), Covers(reg2.boxes, x, y))
  {
    var r1 := reg1.boxes;
    var r2 := reg2.boxes;
    var st := OpState([], 0, 0, 0, Min(reg1.extents.y1, reg2.extents.y1));
    HullContains(r1, 0);
    HullContains(r2, 0);
    assert WfBox(r1[0]) && WfBox(r2[0]);
    assert r1[0..] == r1 && r2[0..] == r2;
    forall x, y ensures Rem(kind, r1, r2, st, x, y) <==> Mix(kind, Covers(r1, x, y), Covers(r2, x, y)) {
      if Covers(r1, x, y) { InsideExtents(reg1, x, y); }
      if Covers(r2, x, y) { InsideExtents(reg2, x, y); }
    }
  }

  /** The boxes of rdp_region_op cover exactly the combination of the operands' points. */
  lemma {:induction false} OpSound(kind: OpKind, reg1: Region, reg2: Region)
    requires Valid(reg1) && Valid(reg2) && FitsSint16(reg1) && FitsSint16(reg2) && |reg1.boxes| > 0 && |reg2.boxes| > 0
    ensures Banded(Op(kind, reg1, reg2))
    ensures forall x, y :: Covers(Op(kind, reg1, reg2), x, y) <==>
      Mix(kind, Covers(reg1.boxes, x, y), Covers(reg2.boxes, x, y))
  {
    var r1 := reg1.boxes;
    var r2 := reg2.boxes;
    var st0 := OpState([], 0, 0, 0, Min(reg1.extents.y1, reg2.extents.y1));
    WalkStart(kind, reg1, reg2);
    LoopSound(kind, r1, r2, st0);
    var st := OpLoop(kind, r1, r2, st0);
    var tail :=
      if kind == IntersectOp then []
      else if st.i1 < |r1| then Tail(r1, st.i1, st.ybot)
      else if st.i2 < |r2| then Tail(r2, st.i2, st.ybot)
      else [];
    assert Op(kind, reg1, reg2) == CombineNew(st.out + tail, st.prevBand, |st.out|).boxes;
    TailFacts(kind, r1, r2, st);
    AppendBelow(st.out, st.prevBand, st.ybot, tail);
    forall x, y ensures Covers(Op(kind, reg1, reg2), x, y) <==> Mix(kind, Covers(r1, x, y), Covers(r2, x, y)) {
      assert Covers(st0.out, x, y) <==> false;
    }
  }

  /** What the final step appends below the walk is exactly what remains. */
  lemma {:induction false} TailFacts(kind: OpKind, r1: seq<Box>, r2: seq<Box>, st: OpState)
    requires Inv(r1, r2, st) && (st.i1 == |r1| || st.i2 == |r2|)
    ensures var tail :=
        if kind == IntersectOp then []
        else if st.i1 < |r1| then Tail(r1, st.i1, st.ybot)
        else if st.i2 < |r2| then Tail(r2, st.i2, st.ybot)
        else [];
      Banded(tail) && (|tail| > 0 ==> st.ybot <= tail[0].y1) &&
      forall x, y :: Covers(tail, x, y) <==> Rem(kind, r1, r2, st, x, y)
  {
    TailSound(r1, st.i1, st.ybot);
    TailSound(r2, st.i2, st.ybot);
    assert r1[|r1|..] == [] && r2[|r2|..] == [];
  }

  // -----------------------------------------------------------------------
  // The exported operations
  // -----------------------------------------------------------------------

  /** A single box enclosing another region's extents covers all of it. */
  lemma {:induction false} ContainsCovers(r1: Region, r2: Region, x: int, y: int)
    requires Valid(r1) && Valid(r2) && Contains(r1, r2) && Covers(r2.boxes, x, y)
    ensures Covers(r1.boxes, x, y)
  {
    InsideExtents(r2, x, y);
    assert r1.extents == r1.boxes[0];
    assert InBox(r1.boxes[0], x, y);
  }

  /**
   * rdp_region_union: the result covers exactly the points of either operand
   * and is a well-formed region, whichever of the fast paths is taken.
   */
  lemma {:induction false} UnionSound(r1: Region, r2: Region, sameObject: bool)
    requires Valid(r1) && Valid(r2) && FitsSint16(r1) && FitsSint16(r2) && (sameObject ==> r1 == r2)
    ensures Valid(Union(r1, r2, sameObject))
    ensures forall x, y :: Covers(Union(r1, r2, sameObject).boxes, x, y) <==>
      Covers(r1.boxes, x, y) || Covers(r2.boxes, x, y)
  {
    var u := Union(r1, r2, sameObject);
    if sameObject || |r1.boxes| == 0 {
      forall x, y ensures !Covers([], x, y) { }
    } else if |r2.boxes| == 0 {
    } else if Contains(r1, r2) {
      forall x, y | Covers(r2.boxes, x, y) ensures Covers(r1.boxes, x, y) {
        ContainsCovers(r1, r2, x, y);
      }
    } else if Contains(r2, r1) {
      forall x, y | Covers(r1.boxes, x, y) ensures Covers(r2.boxes, x, y) {
        ContainsCovers(r2, r1, x, y);
      }
    } else {
      UnionWalkSound(r1, r2);
    }
  }

  /** The general case of union: the band walk with the operands' joined extents. */
  lemma {:induction false} UnionWalkSound(r1: Region, r2: Region)
    requires Valid(r1) && Valid(r2) && FitsSint16(r1) && FitsSint16(r2) && |r1.boxes| > 0 && |r2.boxes| > 0
    ensures var u := Region(Op(UnionOp, r1, r2), Join(r1.extents, r2.extents));
      Valid(u) &&
      forall x, y :: Covers(u.boxes, x, y) <==> Covers(r1.boxes, x, y) || Covers(r2.boxes, x, y)
  {
    var bs := Op(UnionOp, r1, r2);
    var both := r1.boxes + r2.boxes;
    OpSound(UnionOp, r1, r2);
    var b0 := r1.boxes[0];
    assert WfBox(b0) && InBox(b0, b0.x1, b0.y1);
    assert Covers(r1.boxes, b0.x1, b0.y1);
    assert |bs| > 0;
    forall x, y ensures Covers(bs, x, y) <==> Covers(both, x, y) {
      CoversConcat(r1.boxes, r2.boxes, x, y);
    }
    assert AllWf(both) by {
      forall k | 0 <= k < |both| ensures WfBox(both[k]) {
        if k < |r1.boxes| { assert both[k] == r1.boxes[k]; }
        else { assert both[k] == r2.boxes[k - |r1.boxes|]; }
      }
    }
    HullOfCoverage(bs, both);
    HullConcat(r1.boxes, r2.boxes);
  }

  /**
   * rdp_region_union_rect: a rectangle of zero width or height is refused and
   * leaves the destination alone; any other rectangle is added to the
   * source, exactly when its edges and the source's lie within 32767.
   */
  lemma {:induction false} UnionRectSound(rect: Rect, src: Region, dst: Region)
    requires Valid(src)
    ensures UnionRect(rect, src, dst).ok <==> rect.width > 0 && rect.height > 0
    ensures !UnionRect(rect, src, dst).ok ==> UnionRect(rect, src, dst).region == dst
    ensures UnionRect(rect, src, dst).ok && FitsSint16(src) &&
            rect.x + rect.width <= 0x7FFF && rect.y + rect.height <= 0x7FFF ==>
      Valid(UnionRect(rect, src, dst).region) &&
      forall x, y :: Covers(UnionRect(rect, src, dst).region.boxes, x, y) <==>
        (rect.x <= x < rect.x + rect.width && rect.y <= y < rect.y + rect.height) || Covers(src.boxes, x, y)
  {
    if rect.width > 0 && rect.height > 0 && FitsSint16(src) && rect.x + rect.width <= 0x7FFF && rect.y + rect.height <= 0x7FFF {
      InitRectSound(rect);
      assert InitRect(rect) == Region([RectBox(rect)], RectBox(rect));
      assert FitsSint16(InitRect(rect));
      UnionSound(InitRect(rect), src, false);
    }
  }

  /** rdp_region_init_rect: a rectangle whose edges fit in 16 bits becomes a region covering exactly it. */
  lemma {:induction false} InitRectSound(rect: Rect)
    requires rect.x + rect.width < 0x1_0000 && rect.y + rect.height < 0x1_0000
    ensures Valid(InitRect(rect))
    ensures forall x, y :: Covers(InitRect(rect).boxes, x, y) <==>
      rect.x <= x < rect.x + rect.width && rect.y <= y < rect.y + rect.height
  {
    var r := InitRect(rect);
    forall x, y ensures Covers(r.boxes, x, y) <==> rect.x <= x < rect.x + rect.width && rect.y <= y < rect.y + rect.height {
      if Covers(r.boxes, x, y) {
        var k :| 0 <= k < |r.boxes| && InBox(r.boxes[k], x, y);
      }
      if rect.x <= x < rect.x + rect.width && rect.y <= y < rect.y + rect.height {
        assert InBox(r.boxes[0], x, y);
      }
    }
  }

  /** Regions whose extents do not overlap have no point in common. */
  lemma {:induction false} DisjointExtents(r1: Region, r2: Region, x: int, y: int)
    requires Valid(r1) && Valid(r2) && !ExtentsOverlap(r1.extents, r2.extents)
    ensures !(Covers(r1.boxes, x, y) && Covers(r2.boxes, x, y))
  {
    if Covers(r1.boxes, x, y) && Covers(r2.boxes, x, y) {
      InsideExtents(r1, x, y);
      InsideExtents(r2, x, y);
    }
  }

  /**
   * rdp_region_intersect: the result covers exactly the common points and is
   * well formed; the call reports failure, with no boxes, exactly when an
   * operand is empty or the extents do not overlap.
   */
  lemma {:induction false} IntersectSound(r1: Region, r2: Region, dst: Region)
    requires Valid(r1) && Valid(r2) && FitsSint16(r1) && FitsSint16(r2)
    ensures Intersect(r1, r2, dst).ok <==>
      |r1.boxes| > 0 && |r2.boxes| > 0 && ExtentsOverlap(r1.extents, r2.extents)
    ensures !Intersect(r1, r2, dst).ok ==> Intersect(r1, r2, dst).region.boxes == []
    ensures Valid(Intersect(r1, r2, dst).region)
    ensures forall x, y :: Covers(Intersect(r1, r2, dst).region.boxes, x, y) <==>
      Covers(r1.boxes, x, y) && Covers(r2.boxes, x, y)
  {
    var res := Intersect(r1, r2, dst);
    if |r1.boxes| == 0 || |r2.boxes| == 0 {
      forall x, y ensures !Covers([], x, y) { }
    } else if !ExtentsOverlap(r1.extents, r2.extents) {
      forall x, y ensures !(Covers(r1.boxes, x, y) && Covers(r2.boxes, x, y)) && !Covers([], x, y) {
        DisjointExtents(r1, r2, x, y);
      }
    } else {
      OpSound(IntersectOp, r1, r2);
      SetExtentsHull(Op(IntersectOp, r1, r2));
    }
  }
}
