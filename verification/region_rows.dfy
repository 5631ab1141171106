/**
 * What the overlap callbacks of rdp_region_op emit for one pair of bands:
 * union emits the merged spans of both bands as a row of separated boxes,
 * intersection the pairwise intersections of their spans.
 */
module RegionRows {
  import opened Region
  import opened RegionBands

  /** A band's spans: non-empty and running left to right without overlap. */
  predicate Spans(bs: seq<Box>)
  {
    (forall k :: 0 <= k < |bs| ==> bs[k].x1 < bs[k].x2) &&
    (forall k :: 0 < k < |bs| ==> bs[k - 1].x2 <= bs[k].x1)
  }

  /** A row whose neighbouring boxes neither overlap nor touch. */
  predicate StrictRow(bs: seq<Box>, y1: int, y2: int)
  {
    Row(bs, y1, y2) && forall k :: 0 < k < |bs| ==> bs[k - 1].x2 < bs[k].x1
  }

  lemma {:induction false} SpansOrder(bs: seq<Box>, i: nat, j: nat)
    requires Spans(bs) && i < j < |bs|
    ensures bs[i].x2 <= bs[j].x1
    decreases j - i
  {
    if i + 1 < j {
      SpansOrder(bs, i, j - 1);
    }
  }

  lemma {:induction false} RowSpans(bs: seq<Box>, y1: int, y2: int)
    requires Row(bs, y1, y2)
    ensures Spans(bs)
  {
  }

  lemma {:induction false} SpanHead(bs: seq<Box>, x: int)
    requires |bs| > 0
    ensures InSpan(bs, x) <==> (bs[0].x1 <= x < bs[0].x2) || InSpan(bs[1..], x)
  {
    assert bs == [bs[0]] + bs[1..];
    SpanConcat([bs[0]], bs[1..], x);
  }

  /** Nothing after the first span of a band reaches left of that span's right edge. */
  lemma {:induction false} SpanTailRight(bs: seq<Box>, x: int)
    requires Spans(bs) && |bs| > 0 && x < bs[0].x2
    ensures !InSpan(bs[1..], x)
  {
    if InSpan(bs[1..], x) {
      var k :| 0 <= k < |bs[1..]| && bs[1..][k].x1 <= x < bs[1..][k].x2;
      SpansOrder(bs, 0, k + 1);
    }
  }

  // -----------------------------------------------------------------------
  // Union: rdp_region_union_overlap and rdp_region_merge
  // -----------------------------------------------------------------------

  /** The merge keeps a strict row, adds exactly the new span, and its last box starts no later than it. */
  lemma {:induction false} MergeStep(row: seq<Box>, c: Box, y1: int, y2: int, x: int)
    requires StrictRow(row, y1, y2) && c.x1 < c.x2
    requires |row| > 0 ==> row[|row| - 1].x1 <= c.x1
    ensures StrictRow(Merge(row, c, y1, y2), y1, y2)
    ensures InSpan(Merge(row, c, y1, y2), x) <==> InSpan(row, x) || c.x1 <= x < c.x2
    ensures |Merge(row, c, y1, y2)| > 0
    ensures Merge(row, c, y1, y2)[|Merge(row, c, y1, y2)| - 1].x1 <= c.x1
  {
    if |row| != 0 && row[|row| - 1].x2 >= c.x1 {
      if row[|row| - 1].x2 < c.x2 {
        MergeWiden(row, c, y1, y2, x);
      } else {
        MergeInside(row, c, y1, y2, x);
      }
    } else {
      MergeApart(row, c, y1, y2, x);
    }
  }

  lemma {:induction false} SpanOne(b: Box, x: int)
    ensures InSpan([b], x) <==> b.x1 <= x < b.x2
  {
    if b.x1 <= x < b.x2 { assert [b][0] == b; }
  }

  /** The new span overlaps the last box and reaches further right: the last box is widened. */
  lemma {:induction false} MergeWiden(row: seq<Box>, c: Box, y1: int, y2: int, x: int)
    requires StrictRow(row, y1, y2) && c.x1 < c.x2
    requires |row| > 0 ==> row[|row| - 1].x1 <= c.x1
    requires |row| != 0 && c.x1 <= row[|row| - 1].x2 < c.x2
    ensures StrictRow(Merge(row, c, y1, y2), y1, y2)
    ensures InSpan(Merge(row, c, y1, y2), x) <==> InSpan(row, x) || c.x1 <= x < c.x2
    ensures |Merge(row, c, y1, y2)| > 0
    ensures Merge(row, c, y1, y2)[|Merge(row, c, y1, y2)| - 1].x1 <= c.x1
  {
    var m := Merge(row, c, y1, y2);
    var last := row[|row| - 1];
    var init := row[..|row| - 1];
    var nl := Box(last.x1, c.x2, y1, y2);
    assert row == init + [last];
    assert m == init + [nl];
    SpanConcat(init, [last], x);
    SpanConcat(init, [nl], x);
    SpanOne(nl, x);
    SpanOne(last, x);
    forall k | 0 < k < |m| ensures m[k - 1].x2 < m[k].x1 {
      assert m[k - 1] == row[k - 1];
      if k < |m| - 1 { assert m[k] == row[k]; } else { assert m[k].x1 == row[k].x1; }
    }
  }

  /** The new span lies within the last box: nothing changes. */
  lemma {:induction false} MergeInside(row: seq<Box>, c: Box, y1: int, y2: int, x: int)
    requires StrictRow(row, y1, y2) && c.x1 < c.x2
    requires |row| > 0 ==> row[|row| - 1].x1 <= c.x1
    requires |row| != 0 && c.x1 <= row[|row| - 1].x2 && c.x2 <= row[|row| - 1].x2
    ensures StrictRow(Merge(row, c, y1, y2), y1, y2)
    ensures InSpan(Merge(row, c, y1, y2), x) <==> InSpan(row, x) || c.x1 <= x < c.x2
    ensures |Merge(row, c, y1, y2)| > 0
    ensures Merge(row, c, y1, y2)[|Merge(row, c, y1, y2)| - 1].x1 <= c.x1
  {
    var last := row[|row| - 1];
    var init := row[..|row| - 1];
    assert Merge(row, c, y1, y2) == row;
    assert row == init + [last];
    SpanConcat(init, [last], x);
    SpanOne(last, x);
  }

  /** The new span starts right of the last box: it is appended as a box of its own. */
  lemma {:induction false} MergeApart(row: seq<Box>, c: Box, y1: int, y2: int, x: int)
    requires StrictRow(row, y1, y2) && c.x1 < c.x2
    requires |row| > 0 ==> row[|row| - 1].x1 <= c.x1
    requires |row| == 0 || row[|row| - 1].x2 < c.x1
    ensures StrictRow(Merge(row, c, y1, y2), y1, y2)
    ensures InSpan(Merge(row, c, y1, y2), x) <==> InSpan(row, x) || c.x1 <= x < c.x2
    ensures |Merge(row, c, y1, y2)| > 0
    ensures Merge(row, c, y1, y2)[|Merge(row, c, y1, y2)| - 1].x1 <= c.x1
  {
    var nb := Box(c.x1, c.x2, y1, y2);
    var m := Merge(row, c, y1, y2);
    assert m == row + [nb];
    SpanConcat(row, [nb], x);
    SpanOne(nb, x);
    assert m[|m| - 1] == nb;
  }

  /** Merging into a row that sits below `out` leaves `out` untouched. */
  lemma {:induction false} MergeAfter(out: seq<Box>, row: seq<Box>, c: Box, y1: int, y2: int)
    requires y1 < y2
    requires |row| > 0 || |out| == 0 || out[|out| - 1].y2 <= y1
    ensures Merge(out + row, c, y1, y2) == out + Merge(row, c, y1, y2)
  {
    var s := out + row;
    if |row| > 0 {
      assert s[|s| - 1] == row[|row| - 1];
      assert s[..|s| - 1] == out + row[..|row| - 1];
    }
  }

  lemma {:induction false} UnionOverlapAfter(out: seq<Box>, row: seq<Box>, b1: seq<Box>, b2: seq<Box>, y1: int, y2: int)
    requires y1 < y2
    requires |row| > 0 || |out| == 0 || out[|out| - 1].y2 <= y1
    ensures UnionOverlap(out + row, b1, b2, y1, y2) == out + UnionOverlap(row, b1, b2, y1, y2)
    decreases |b1| + |b2|
  {
    if |b1| > 0 && (|b2| == 0 || b1[0].x1 < b2[0].x1) {
      MergeAfter(out, row, b1[0], y1, y2);
      assert out + Merge(row, b1[0], y1, y2) == (out + row)[..|out|] + Merge(row, b1[0], y1, y2);
      UnionOverlapAfter(out, Merge(row, b1[0], y1, y2), b1[1..], b2, y1, y2);
    } else if |b2| > 0 {
      MergeAfter(out, row, b2[0], y1, y2);
      UnionOverlapAfter(out, Merge(row, b2[0], y1, y2), b1, b2[1..], y1, y2);
    }
  }

  /**
   * rdp_region_union_overlap, started on a strict row whose last box starts no
   * later than both bands: the result is a strict row covering the row's
   * columns and both bands' columns, and nothing else.
   */
  lemma {:induction false} UnionOverlapRow(row: seq<Box>, b1: seq<Box>, b2: seq<Box>, y1: int, y2: int, x: int)
    requires StrictRow(row, y1, y2) && Spans(b1) && Spans(b2)
    requires |row| > 0 && |b1| > 0 ==> row[|row| - 1].x1 <= b1[0].x1
    requires |row| > 0 && |b2| > 0 ==> row[|row| - 1].x1 <= b2[0].x1
    ensures StrictRow(UnionOverlap(row, b1, b2, y1, y2), y1, y2)
    ensures InSpan(UnionOverlap(row, b1, b2, y1, y2), x) <==> InSpan(row, x) || InSpan(b1, x) || InSpan(b2, x)
    ensures |row| + |b1| + |b2| > 0 ==> |UnionOverlap(row, b1, b2, y1, y2)| > 0
    decreases |b1| + |b2|, 1
  {
    if |b1| > 0 && (|b2| == 0 || b1[0].x1 < b2[0].x1) {
      UnionTakeFirst(row, b1, b2, y1, y2, x);
    } else if |b2| > 0 {
      UnionTakeSecond(row, b1, b2, y1, y2, x);
    } else {
      assert !InSpan(b1, x) && !InSpan(b2, x);
    }
  }

  /** The first band's next span starts further left: it is merged first. */
  lemma {:induction false} UnionTakeFirst(row: seq<Box>, b1: seq<Box>, b2: seq<Box>, y1: int, y2: int, x: int)
    requires StrictRow(row, y1, y2) && Spans(b1) && Spans(b2)
    requires |row| > 0 && |b1| > 0 ==> row[|row| - 1].x1 <= b1[0].x1
    requires |row| > 0 && |b2| > 0 ==> row[|row| - 1].x1 <= b2[0].x1
    requires |b1| > 0 && (|b2| == 0 || b1[0].x1 < b2[0].x1)
    ensures StrictRow(UnionOverlap(row, b1, b2, y1, y2), y1, y2)
    ensures InSpan(UnionOverlap(row, b1, b2, y1, y2), x) <==> InSpan(row, x) || InSpan(b1, x) || InSpan(b2, x)
    ensures |row| + |b1| + |b2| > 0 ==> |UnionOverlap(row, b1, b2, y1, y2)| > 0
    decreases |b1| + |b2|, 0
  {
    var m := Merge(row, b1[0], y1, y2);
    assert UnionOverlap(row, b1, b2, y1, y2) == UnionOverlap(m, b1[1..], b2, y1, y2);
    MergeStep(row, b1[0], y1, y2, x);
    if |b1| > 1 { SpansOrder(b1, 0, 1); }
    UnionOverlapRow(m, b1[1..], b2, y1, y2, x);
    SpanHead(b1, x);
  }

  /** The second band's next span starts no further right: it is merged first. */
  lemma {:induction false} UnionTakeSecond(row: seq<Box>, b1: seq<Box>, b2: seq<Box>, y1: int, y2: int, x: int)
    requires StrictRow(row, y1, y2) && Spans(b1) && Spans(b2)
    requires |row| > 0 && |b1| > 0 ==> row[|row| - 1].x1 <= b1[0].x1
    requires |row| > 0 && |b2| > 0 ==> row[|row| - 1].x1 <= b2[0].x1
    requires |b2| > 0 && (|b1| == 0 || b2[0].x1 <= b1[0].x1)
    ensures StrictRow(UnionOverlap(row, b1, b2, y1, y2), y1, y2)
    ensures InSpan(UnionOverlap(row, b1, b2, y1, y2), x) <==> InSpan(row, x) || InSpan(b1, x) || InSpan(b2, x)
    ensures |row| + |b1| + |b2| > 0 ==> |UnionOverlap(row, b1, b2, y1, y2)| > 0
    decreases |b1| + |b2|, 0
  {
    var m := Merge(row, b2[0], y1, y2);
    assert UnionOverlap(row, b1, b2, y1, y2) == UnionOverlap(m, b1, b2[1..], y1, y2);
    MergeStep(row, b2[0], y1, y2, x);
    if |b2| > 1 { SpansOrder(b2, 0, 1); }
    UnionOverlapRow(m, b1, b2[1..], y1, y2, x);
    SpanHead(b2, x);
  }

  // -----------------------------------------------------------------------
  // Intersection: rdp_region_intersect_overlap
  // -----------------------------------------------------------------------

  /** Every piece starts at or right of both bands' first left edges. */
  lemma {:induction false} IntersectRowLeft(b1: seq<Box>, b2: seq<Box>, y1: int, y2: int)
    requires Spans(b1) && Spans(b2) && |b1| > 0 && |b2| > 0
    ensures forall k :: 0 <= k < |IntersectRow(b1, b2, y1, y2)| ==>
              IntersectRow(b1, b2, y1, y2)[k].x1 >= Max(b1[0].x1, b2[0].x1)
    decreases |b1| + |b2|
  {
    var x1 := Max(b1[0].x1, b2[0].x1);
    var x2 := Min(b1[0].x2, b2[0].x2);
    var piece := if x1 < x2 then [Box(x1, x2, y1, y2)] else [];
    if b1[0].x2 < b2[0].x2 {
      if |b1| > 1 { IntersectRowLeft(b1[1..], b2, y1, y2); SpansOrder(b1, 0, 1); }
    } else if b2[0].x2 < b1[0].x2 {
      if |b2| > 1 { IntersectRowLeft(b1, b2[1..], y1, y2); SpansOrder(b2, 0, 1); }
    } else {
      if |b1| > 1 && |b2| > 1 { IntersectRowLeft(b1[1..], b2[1..], y1, y2); SpansOrder(b1, 0, 1); }
    }
  }

  /** The intersection row is a row at [y1, y2). */
  lemma {:induction false} IntersectRowShape(b1: seq<Box>, b2: seq<Box>, y1: int, y2: int)
    requires Spans(b1) && Spans(b2) && y1 < y2
    ensures Row(IntersectRow(b1, b2, y1, y2), y1, y2)
    decreases |b1| + |b2|
  {
    if |b1| > 0 && |b2| > 0 {
      var x1 := Max(b1[0].x1, b2[0].x1);
      var x2 := Min(b1[0].x2, b2[0].x2);
      var piece := if x1 < x2 then [Box(x1, x2, y1, y2)] else [];
      var n1 := if b2[0].x2 < b1[0].x2 then b1 else b1[1..];
      var n2 := if b1[0].x2 < b2[0].x2 then b2 else b2[1..];
      var rest := IntersectRow(n1, n2, y1, y2);
      assert IntersectRow(b1, b2, y1, y2) == piece + rest;
      IntersectRowShape(n1, n2, y1, y2);
      if |piece| > 0 && |rest| > 0 {
        // the piece ends where the next piece can start at the earliest
        assert |n1| > 0 && |n2| > 0;
        IntersectRowLeft(n1, n2, y1, y2);
        if b1[0].x2 <= b2[0].x2 { SpansOrder(b1, 0, 1); assert n1[0] == b1[1]; }
        else { SpansOrder(b2, 0, 1); assert n2[0] == b2[1]; }
        assert rest[0].x1 >= Max(n1[0].x1, n2[0].x1);
      }
      RowConcat(piece, rest, y1, y2);
    }
  }

  lemma {:induction false} RowConcat(a: seq<Box>, b: seq<Box>, y1: int, y2: int)
    requires Row(a, y1, y2) && Row(b, y1, y2)
    requires |a| > 0 && |b| > 0 ==> a[|a| - 1].x2 <= b[0].x1
    ensures Row(a + b, y1, y2)
  {
    var r := a + b;
    forall k | 0 < k < |r| ensures r[k - 1].x2 <= r[k].x1 {
      if k < |a| {
        assert r[k - 1] == a[k - 1] && r[k] == a[k];
      } else if k == |a| {
        assert r[k - 1] == a[|a| - 1] && r[k] == b[0];
      } else {
        assert r[k - 1] == b[k - 1 - |a|] && r[k] == b[k - |a|];
      }
    }
  }

  /** A column is in the intersection row exactly when it is in both bands. */
  lemma {:induction false} IntersectRowCovers(b1: seq<Box>, b2: seq<Box>, y1: int, y2: int, x: int)
    requires Spans(b1) && Spans(b2)
    ensures InSpan(IntersectRow(b1, b2, y1, y2), x) <==> InSpan(b1, x) && InSpan(b2, x)
    decreases |b1| + |b2|
  {
    if |b1| > 0 && |b2| > 0 {
      var x1 := Max(b1[0].x1, b2[0].x1);
      var x2 := Min(b1[0].x2, b2[0].x2);
      var piece := if x1 < x2 then [Box(x1, x2, y1, y2)] else [];
      var n1 := if b2[0].x2 < b1[0].x2 then b1 else b1[1..];
      var n2 := if b1[0].x2 < b2[0].x2 then b2 else b2[1..];
      var rest := IntersectRow(n1, n2, y1, y2);
      assert IntersectRow(b1, b2, y1, y2) == piece + rest;
      IntersectRowCovers(n1, n2, y1, y2, x);
      SpanConcat(piece, rest, x);
      assert InSpan(piece, x) <==> x1 <= x < x2 by {
        if x1 <= x < x2 { assert piece[0].x1 <= x < piece[0].x2; }
      }
      // the first span of the band that ends first meets only the other band's first span
      SpanHead(b1, x);
      SpanHead(b2, x);
      if b1[0].x1 <= x < b1[0].x2 && b1[0].x2 <= b2[0].x2 { SpanTailRight(b2, x); }
      if b2[0].x1 <= x < b2[0].x2 && b2[0].x2 <= b1[0].x2 { SpanTailRight(b1, x); }
    }
  }

  // -----------------------------------------------------------------------
  // The overlap callback as a row appended to the output
  // -----------------------------------------------------------------------

  /** The boxes an overlap callback appends. */
  function OverlapRow(kind: OpKind, b1: seq<Box>, b2: seq<Box>, y1: int, y2: int): seq<Box>
  {
    match kind
    case UnionOp => UnionOverlap([], b1, b2, y1, y2)
    case IntersectOp => IntersectRow(b1, b2, y1, y2)
  }

  /** The value a point gets from both operands' values under the operation. */
  function Mix(kind: OpKind, a: bool, b: bool): bool
  {
    match kind
    case UnionOp => a || b
    case IntersectOp => a && b
  }

  /**
   * Below the output, the overlap callback appends a row whose columns are the
   * union (or intersection) of the two bands' columns.
   */
  lemma {:induction false} OverlapSound(kind: OpKind, out: seq<Box>, b1: seq<Box>, b2: seq<Box>, y1: int, y2: int)
    requires y1 < y2 && Spans(b1) && Spans(b2)
    requires |out| > 0 ==> out[|out| - 1].y2 <= y1
    ensures Overlap(kind, out, b1, b2, y1, y2) == out + OverlapRow(kind, b1, b2, y1, y2)
    ensures Row(OverlapRow(kind, b1, b2, y1, y2), y1, y2)
    ensures forall x :: InSpan(OverlapRow(kind, b1, b2, y1, y2), x) <==> Mix(kind, InSpan(b1, x), InSpan(b2, x))
    ensures kind == UnionOp && |b1| > 0 ==> |OverlapRow(kind, b1, b2, y1, y2)| > 0
  {
    if kind == UnionOp {
      UnionOverlapAfter(out, [], b1, b2, y1, y2);
      assert out + [] == out;
      forall x ensures InSpan(OverlapRow(kind, b1, b2, y1, y2), x) <==> Mix(kind, InSpan(b1, x), InSpan(b2, x)) {
        UnionOverlapRow([], b1, b2, y1, y2, x);
      }
      UnionOverlapRow([], b1, b2, y1, y2, 0);
    } else {
      forall x ensures InSpan(OverlapRow(kind, b1, b2, y1, y2), x) <==> Mix(kind, InSpan(b1, x), InSpan(b2, x)) {
        IntersectRowCovers(b1, b2, y1, y2, x);
      }
      IntersectRowShape(b1, b2, y1, y2);
    }
  }
}
