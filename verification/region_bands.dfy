/**
 * Facts about banded box lists: how bands are laid out, what a list covers
 * when it is split or concatenated, and what rdp_region_combine preserves.
 */
module RegionBands {
  import opened Region

  /** Box i is the first of its band. */
  predicate BandStart(bs: seq<Box>, i: nat)
  {
    0 < i < |bs| ==> bs[i - 1].y1 != bs[i].y1
  }

  /** The boxes from p on form exactly the last band (or the list is empty and p is 0). */
  predicate LastBand(bs: seq<Box>, p: nat)
  {
    (p == 0 && |bs| == 0) || (p < |bs| && BandStart(bs, p) && BandEnd(bs, p) == |bs|)
  }

  /** Every box sits in rows [y1, y2), spans are non-empty and run left to right. */
  predicate Row(bs: seq<Box>, y1: int, y2: int)
  {
    y1 < y2 &&
    (forall k :: 0 <= k < |bs| ==> bs[k].y1 == y1 && bs[k].y2 == y2 && bs[k].x1 < bs[k].x2) &&
    (forall k :: 0 < k < |bs| ==> bs[k - 1].x2 <= bs[k].x1)
  }

  // -----------------------------------------------------------------------
  // Order between any two boxes of a banded list
  // -----------------------------------------------------------------------

  lemma {:induction false} FollowsTrans(a: Box, b: Box, c: Box)
    requires WfBox(a) && WfBox(b) && WfBox(c)
    requires Follows(a, b) && Follows(b, c)
    ensures Follows(a, c)
  {
  }

  /** Consecutive order extends to any two boxes of a banded list. */
  lemma {:induction false} BandedPair(bs: seq<Box>, i: nat, j: nat)
    requires Banded(bs) && i < j < |bs|
    ensures Follows(bs[i], bs[j])
    decreases j - i
  {
    if i + 1 < j {
      BandedPair(bs, i, j - 1);
      FollowsTrans(bs[i], bs[j - 1], bs[j]);
    }
  }

  /** Two boxes of a banded list, i before j: same top means same band; otherwise i is above. */
  lemma {:induction false} BandedOrder(bs: seq<Box>, i: nat, j: nat)
    requires Banded(bs) && i < j < |bs|
    ensures bs[i].y1 <= bs[j].y1
    ensures bs[i].y1 == bs[j].y1 ==> bs[i].y2 == bs[j].y2 && bs[i].x2 <= bs[j].x1
    ensures bs[i].y1 != bs[j].y1 ==> bs[i].y2 <= bs[j].y1
  {
    BandedPair(bs, i, j);
  }

  lemma {:induction false} BandedSlice(bs: seq<Box>, i: nat, j: nat)
    requires Banded(bs) && i <= j <= |bs|
    ensures Banded(bs[i..j])
  {
    var s := bs[i..j];
    forall k | 0 < k < |s| ensures Follows(s[k - 1], s[k]) {
      assert s[k - 1] == bs[i + k - 1] && s[k] == bs[i + k];
    }
  }

  lemma {:induction false} BandedConcat(a: seq<Box>, b: seq<Box>)
    requires Banded(a) && Banded(b)
    requires |a| > 0 && |b| > 0 ==> Follows(a[|a| - 1], b[0])
    ensures Banded(a + b)
  {
    var s := a + b;
    forall k | 0 < k < |s| ensures Follows(s[k - 1], s[k]) {
      if k < |a| {
        assert s[k - 1] == a[k - 1] && s[k] == a[k];
      } else if k == |a| {
        assert s[k - 1] == a[|a| - 1] && s[k] == b[0];
      } else {
        assert s[k - 1] == b[k - 1 - |a|] && s[k] == b[k - |a|];
      }
    }
  }

  /** The band starting at i: shared top and bottom, and everything after it lies lower. */
  lemma {:induction false} BandFacts(bs: seq<Box>, i: nat)
    requires Banded(bs) && i < |bs|
    ensures forall k :: i <= k < BandEnd(bs, i) ==> bs[k].y1 == bs[i].y1 && bs[k].y2 == bs[i].y2
    ensures forall k :: BandEnd(bs, i) <= k < |bs| ==> bs[i].y2 <= bs[k].y1
    ensures Row(bs[i..BandEnd(bs, i)], bs[i].y1, bs[i].y2)
  {
    var e := BandEnd(bs, i);
    forall k | i < k < e ensures bs[k].y1 == bs[i].y1 && bs[k].y2 == bs[i].y2 {
      BandedOrder(bs, i, k);
    }
    forall k | e <= k < |bs| ensures bs[i].y2 <= bs[k].y1 {
      if e < k {
        BandedOrder(bs, e, k);
      }
      BandedOrder(bs, i, e);
      BandedOrder(bs, i, k);
    }
    var s := bs[i..e];
    forall k | 0 < k < |s| ensures s[k - 1].x2 <= s[k].x1 {
      assert s[k - 1] == bs[i + k - 1] && s[k] == bs[i + k];
      BandedOrder(bs, i + k - 1, i + k);
    }
  }

  /** Before the band starting at i every box ends at or above its top. */
  lemma {:induction false} BeforeBand(bs: seq<Box>, i: nat)
    requires Banded(bs) && 0 < i < |bs| && BandStart(bs, i)
    ensures forall k :: 0 <= k < i ==> bs[k].y2 <= bs[i].y1
  {
    forall k | 0 <= k < i ensures bs[k].y2 <= bs[i].y1 {
      if k < i - 1 {
        BandedOrder(bs, k, i - 1);
      }
      BandedOrder(bs, i - 1, i);
    }
  }

  /** The last box of a banded list reaches lowest. */
  lemma {:induction false} LastLowest(bs: seq<Box>)
    requires Banded(bs) && |bs| > 0
    ensures forall k :: 0 <= k < |bs| ==> bs[k].y2 <= bs[|bs| - 1].y2
  {
    forall k | 0 <= k < |bs| - 1 ensures bs[k].y2 <= bs[|bs| - 1].y2 {
      BandedOrder(bs, k, |bs| - 1);
    }
  }

  lemma {:induction false} RowBanded(bs: seq<Box>, y1: int, y2: int)
    requires Row(bs, y1, y2)
    ensures Banded(bs)
  {
  }

  // -----------------------------------------------------------------------
  // Coverage of pieces
  // -----------------------------------------------------------------------

  lemma {:induction false} CoversConcat(a: seq<Box>, b: seq<Box>, x: int, y: int)
    ensures Covers(a + b, x, y) <==> Covers(a, x, y) || Covers(b, x, y)
  {
    var s := a + b;
    if Covers(s, x, y) {
      var k :| 0 <= k < |s| && InBox(s[k], x, y);
      if k < |a| { assert a[k] == s[k]; } else { assert b[k - |a|] == s[k]; }
    }
    if Covers(a, x, y) {
      var k :| 0 <= k < |a| && InBox(a[k], x, y);
      assert s[k] == a[k];
    }
    if Covers(b, x, y) {
      var k :| 0 <= k < |b| && InBox(b[k], x, y);
      assert s[|a| + k] == b[k];
    }
  }

  lemma {:induction false} CoversSplit(bs: seq<Box>, i: nat, x: int, y: int)
    requires i <= |bs|
    ensures Covers(bs, x, y) <==> Covers(bs[..i], x, y) || Covers(bs[i..], x, y)
  {
    assert bs == bs[..i] + bs[i..];
    CoversConcat(bs[..i], bs[i..], x, y);
  }

  lemma {:induction false} SpanConcat(a: seq<Box>, b: seq<Box>, x: int)
    ensures InSpan(a + b, x) <==> InSpan(a, x) || InSpan(b, x)
  {
    var s := a + b;
    if InSpan(s, x) {
      var k :| 0 <= k < |s| && s[k].x1 <= x < s[k].x2;
      if k < |a| { assert a[k] == s[k]; } else { assert b[k - |a|] == s[k]; }
    }
    if InSpan(a, x) {
      var k :| 0 <= k < |a| && a[k].x1 <= x < a[k].x2;
      assert s[k] == a[k];
    }
    if InSpan(b, x) {
      var k :| 0 <= k < |b| && b[k].x1 <= x < b[k].x2;
      assert s[|a| + k] == b[k];
    }
  }

  /** A list whose boxes all sit in rows [y1, y2) covers a point iff its row and column are covered. */
  lemma {:induction false} RowCovers(bs: seq<Box>, y1: int, y2: int, x: int, y: int)
    requires forall k :: 0 <= k < |bs| ==> bs[k].y1 == y1 && bs[k].y2 == y2
    ensures Covers(bs, x, y) <==> y1 <= y < y2 && InSpan(bs, x)
  {
    if y1 <= y < y2 && InSpan(bs, x) {
      var k :| 0 <= k < |bs| && bs[k].x1 <= x < bs[k].x2;
      assert InBox(bs[k], x, y);
    }
  }

  lemma {:induction false} NonOverlapRow(band: seq<Box>, y1: int, y2: int)
    requires |band| > 0 && Row(band, band[0].y1, band[0].y2) && y1 < y2
    ensures Row(NonOverlap(band, y1, y2), y1, y2)
    ensures forall x :: InSpan(NonOverlap(band, y1, y2), x) <==> InSpan(band, x)
  {
    var r := NonOverlap(band, y1, y2);
    forall x ensures InSpan(r, x) <==> InSpan(band, x) {
      if InSpan(r, x) {
        var k :| 0 <= k < |r| && r[k].x1 <= x < r[k].x2;
        assert band[k].x1 <= x < band[k].x2;
      }
      if InSpan(band, x) {
        var k :| 0 <= k < |band| && band[k].x1 <= x < band[k].x2;
        assert r[k].x1 <= x < r[k].x2;
      }
    }
  }

  /** Appending a row below everything keeps the list banded and starts a new last band. */
  lemma {:induction false} AppendRow(out: seq<Box>, row: seq<Box>, y1: int, y2: int)
    requires Banded(out) && Row(row, y1, y2) && |row| > 0
    requires |out| > 0 ==> out[|out| - 1].y2 <= y1
    ensures Banded(out + row)
    ensures LastBand(out + row, |out|)
    ensures (out + row)[|out + row| - 1].y2 == y2
  {
    BandedConcat(out, row);
    var s := out + row;
    assert s[|out|] == row[0];
    if |out| > 0 {
      assert s[|out| - 1] == out[|out| - 1];
    }
    BandEndAtRow(s, |out|, y1);
  }

  lemma {:induction false} BandEndAtRow(s: seq<Box>, i: nat, y1: int)
    requires i < |s| && forall k :: i <= k < |s| ==> s[k].y1 == y1
    ensures BandEnd(s, i) == |s|
    decreases |s| - i
  {
    if i + 1 < |s| {
      BandEndAtRow(s, i + 1, y1);
    }
  }

  // -----------------------------------------------------------------------
  // rdp_region_combine
  // -----------------------------------------------------------------------

  lemma {:induction false} StretchCovers(prev: seq<Box>, cur: seq<Box>, x: int, y: int)
    requires SameSpans(prev, cur)
    requires forall k :: 0 <= k < |prev| ==> prev[k].y2 == cur[k].y1
    requires forall k :: 0 <= k < |prev| ==> prev[k].y1 < prev[k].y2 && cur[k].y1 < cur[k].y2
    ensures Covers(Stretch(prev, cur), x, y) <==> Covers(prev, x, y) || Covers(cur, x, y)
  {
    var s := Stretch(prev, cur);
    if Covers(s, x, y) {
      var k :| 0 <= k < |s| && InBox(s[k], x, y);
      if y < prev[k].y2 { assert InBox(prev[k], x, y); } else { assert InBox(cur[k], x, y); }
    }
    if Covers(prev, x, y) {
      var k :| 0 <= k < |prev| && InBox(prev[k], x, y);
      assert InBox(s[k], x, y);
    }
    if Covers(cur, x, y) {
      var k :| 0 <= k < |cur| && InBox(cur[k], x, y);
      assert InBox(s[k], x, y);
    }
  }

  /** The merged case of rdp_region_combine: pieces of the list before and after. */
  predicate MergeCase(bs: seq<Box>, p: nat, c: nat)
    requires p <= c < |bs|
  {
    var ce := BandEnd(bs, c);
    ce - c == c - p && bs[p].y2 == bs[c].y1 && SameSpans(bs[p..c], bs[c..ce])
  }

  lemma {:induction false} CombineMergedCovers(bs: seq<Box>, p: nat, c: nat)
    requires Banded(bs) && p <= c < |bs| && BandStart(bs, c)
    requires p == c || (BandStart(bs, p) && BandEnd(bs, p) == c)
    requires MergeCase(bs, p, c)
    ensures forall x, y :: Covers(Combine(bs, p, c).boxes, x, y) <==> Covers(bs, x, y)
  {
    var ce := BandEnd(bs, c);
    var A, P, Cu, C := bs[..p], bs[p..c], bs[c..ce], bs[ce..];
    var S := Stretch(P, Cu);
    var r := A + S + C;
    CombineMergedPieces(bs, p, c);
    SplitFour(bs, p, c, ce);
    StretchReady(bs, p, c);
    forall x, y ensures Covers(r, x, y) <==> Covers(bs, x, y) {
      StretchCovers(P, Cu, x, y);
      ReplaceMiddle(A, P, Cu, C, S, x, y);
    }
  }

  /** Replacing two adjacent pieces by one covering the same points keeps the coverage of the whole list. */
  lemma {:induction false} ReplaceMiddle(A: seq<Box>, P: seq<Box>, Cu: seq<Box>, C: seq<Box>, S: seq<Box>, x: int, y: int)
    requires Covers(S, x, y) <==> Covers(P, x, y) || Covers(Cu, x, y)
    ensures Covers(A + S + C, x, y) <==> Covers(A + P + Cu + C, x, y)
  {
    CoversConcat(A + S, C, x, y);
    CoversConcat(A, S, x, y);
    CoversConcat(A + P + Cu, C, x, y);
    CoversConcat(A + P, Cu, x, y);
    CoversConcat(A, P, x, y);
  }

  lemma {:induction false} SplitFour(bs: seq<Box>, i: nat, j: nat, k: nat)
    requires i <= j <= k <= |bs|
    ensures bs == bs[..i] + bs[i..j] + bs[j..k] + bs[k..]
  {
    assert bs[..j] == bs[..i] + bs[i..j];
    assert bs[..k] == bs[..j] + bs[j..k];
  }

  /** The merged case, piece by piece: the list before, the stretched band, the list after. */
  lemma {:induction false} CombineMergedPieces(bs: seq<Box>, p: nat, c: nat)
    requires p <= c < |bs| && MergeCase(bs, p, c)
    ensures var ce := BandEnd(bs, c);
      Combine(bs, p, c).boxes == bs[..p] + Stretch(bs[p..c], bs[c..ce]) + bs[ce..]
  {
  }

  /**
   * The merged case removes exactly the boxes of the band at c: the boxes
   * before p stay, each box of the previous band takes the bottom edge of
   * the box below it, and the boxes after the band move up by its length.
   */
  lemma {:induction false} CombineMerged(bs: seq<Box>, p: nat, c: nat)
    requires p <= c < |bs| && MergeCase(bs, p, c)
    ensures var r := Combine(bs, p, c).boxes; var n := BandEnd(bs, c) - c;
      && |r| == |bs| - n
      && (forall k :: 0 <= k < p ==> r[k] == bs[k])
      && (forall k :: p <= k < c ==> r[k] == Box(bs[k].x1, bs[k].x2, bs[k].y1, bs[k + n].y2))
      && (forall k :: c <= k < |r| ==> r[k] == bs[k + n])
  {
    var ce := BandEnd(bs, c);
    var n := ce - c;
    var A, S, C := bs[..p], Stretch(bs[p..c], bs[c..ce]), bs[ce..];
    CombineMergedPieces(bs, p, c);
    var r := A + S + C;
    assert |S| == c - p;
    forall k | p <= k < c ensures r[k] == Box(bs[k].x1, bs[k].x2, bs[k].y1, bs[k + n].y2) {
      assert r[k] == S[k - p];
      assert bs[p..c][k - p] == bs[k] && bs[c..ce][k - p] == bs[k + n];
    }
    forall k | c <= k < |r| ensures r[k] == bs[k + n] {
      assert r[k] == C[k - c];
    }
  }

  /** In the merged case the band before c sits directly on top of it, box for box. */
  lemma {:induction false} StretchReady(bs: seq<Box>, p: nat, c: nat)
    requires Banded(bs) && p <= c < |bs| && BandStart(bs, c)
    requires p == c || (BandStart(bs, p) && BandEnd(bs, p) == c)
    requires MergeCase(bs, p, c)
    ensures var P, Cu := bs[p..c], bs[c..BandEnd(bs, c)];
      forall k :: 0 <= k < |P| ==> P[k].y2 == Cu[k].y1 && P[k].y1 < P[k].y2 && Cu[k].y1 < Cu[k].y2
  {
    var ce := BandEnd(bs, c);
    BandFacts(bs, c);
    BandFacts(bs, p);
    var P, Cu := bs[p..c], bs[c..ce];
    forall k | 0 <= k < |P| ensures P[k].y2 == Cu[k].y1 && P[k].y1 < P[k].y2 && Cu[k].y1 < Cu[k].y2 {
      assert P[k] == bs[p + k] && Cu[k] == bs[c + k];
    }
  }

  lemma {:induction false} StretchRow(bs: seq<Box>, p: nat, c: nat)
    requires Banded(bs) && p <= c < |bs| && BandStart(bs, c)
    requires p == c || (BandStart(bs, p) && BandEnd(bs, p) == c)
    requires MergeCase(bs, p, c)
    ensures Row(Stretch(bs[p..c], bs[c..BandEnd(bs, c)]), bs[p].y1, bs[c].y2)
  {
    var ce := BandEnd(bs, c);
    BandFacts(bs, c);
    BandFacts(bs, p);
    var S := Stretch(bs[p..c], bs[c..ce]);
    forall k | 0 < k < |S| ensures S[k - 1].x2 <= S[k].x1 {
      assert S[k - 1].x2 == bs[p + k - 1].x2 && S[k].x1 == bs[p + k].x1;
      BandedOrder(bs, p + k - 1, p + k);
    }
    forall k | 0 <= k < |S| ensures S[k].y1 == bs[p].y1 && S[k].y2 == bs[c].y2 && S[k].x1 < S[k].x2 {
      assert S[k].y2 == bs[c + k].y2 && S[k].y1 == bs[p + k].y1;
      assert S[k].x1 == bs[p + k].x1 && S[k].x2 == bs[p + k].x2;
    }
  }

  lemma {:induction false} CombineMergedShape(bs: seq<Box>, p: nat, c: nat)
    requires Banded(bs) && p <= c < |bs| && BandStart(bs, c)
    requires p == c || (BandStart(bs, p) && BandEnd(bs, p) == c)
    requires MergeCase(bs, p, c)
    ensures Banded(Combine(bs, p, c).boxes)
    ensures 0 < |Combine(bs, p, c).boxes| <= |bs|
    ensures Combine(bs, p, c).boxes[|Combine(bs, p, c).boxes| - 1].y2 == bs[|bs| - 1].y2
    ensures BandEnd(bs, c) == |bs| ==> LastBand(Combine(bs, p, c).boxes, Combine(bs, p, c).prevBand)
  {
    var ce := BandEnd(bs, c);
    BandFacts(bs, c);
    var A, C := bs[..p], bs[ce..];
    var S := Stretch(bs[p..c], bs[c..ce]);
    CombineMergedPieces(bs, p, c);
    StretchRow(bs, p, c);
    BandedSlice(bs, 0, p);
    RowBanded(S, bs[p].y1, bs[c].y2);
    if p > 0 {
      BeforeBand(bs, p);
      assert A[|A| - 1] == bs[p - 1];
    }
    BandedConcat(A, S);
    if ce < |bs| {
      MergedInner(bs, A, S, C, ce);
    } else {
      MergedLast(bs, p, c, A, S);
    }
  }

  /** The merged band is followed by more bands: the tail is appended unchanged. */
  lemma {:induction false} MergedInner(bs: seq<Box>, A: seq<Box>, S: seq<Box>, C: seq<Box>, ce: nat)
    requires Banded(bs) && ce < |bs| && C == bs[ce..] && |S| > 0
    requires Banded(A + S) && (A + S)[|A + S| - 1].y2 <= bs[ce].y1
    ensures Banded(A + S + C)
    ensures (A + S + C)[|A + S + C| - 1].y2 == bs[|bs| - 1].y2
  {
    BandedSlice(bs, ce, |bs|);
    assert C[0] == bs[ce];
    BandedConcat(A + S, C);
    var r := A + S + C;
    assert r[|r| - 1] == bs[|bs| - 1];
  }

  /** The merged band is the last one: it starts at p and reaches the end. */
  lemma {:induction false} MergedLast(bs: seq<Box>, p: nat, c: nat, A: seq<Box>, S: seq<Box>)
    requires p <= c < |bs| && BandEnd(bs, c) == |bs| && MergeCase(bs, p, c)
    requires A == bs[..p] && S == Stretch(bs[p..c], bs[c..|bs|])
    requires Row(S, bs[p].y1, bs[c].y2) && Banded(A + S)
    requires BandStart(bs, p)
    ensures Combine(bs, p, c).boxes == A + S && Combine(bs, p, c).prevBand == p
    ensures LastBand(A + S, p)
  {
    var r := A + S;
    assert bs[c..|bs|] == bs[c..];
    assert bs[|bs|..] == [];
    CombineMergedPieces(bs, p, c);
    assert r == Combine(bs, p, c).boxes;
    assert r[p] == S[0];
    if p > 0 {
      assert r[p - 1] == bs[p - 1];
    }
    BandEndAtRow(r, p, bs[p].y1);
  }

  /**
   * Combining the band at c with the band before it keeps the list banded,
   * covers the same points, keeps the bottom edge of the last box, and, when
   * the band at c was the last one, returns the start of the new last band.
   */
  lemma {:induction false} CombineSound(bs: seq<Box>, p: nat, c: nat)
    requires Banded(bs) && p <= c < |bs| && BandStart(bs, c)
    requires p == c || (BandStart(bs, p) && BandEnd(bs, p) == c)
    ensures Banded(Combine(bs, p, c).boxes)
    ensures forall x, y :: Covers(Combine(bs, p, c).boxes, x, y) <==> Covers(bs, x, y)
    ensures 0 < |Combine(bs, p, c).boxes| <= |bs|
    ensures Combine(bs, p, c).boxes[|Combine(bs, p, c).boxes| - 1].y2 == bs[|bs| - 1].y2
    ensures BandEnd(bs, c) == |bs| ==> LastBand(Combine(bs, p, c).boxes, Combine(bs, p, c).prevBand)
    ensures MergeCase(bs, p, c) ==> |Combine(bs, p, c).boxes| == |bs| - (BandEnd(bs, c) - c)
    ensures !MergeCase(bs, p, c) ==> Combine(bs, p, c).boxes == bs
  {
    if MergeCase(bs, p, c) {
      CombineMerged(bs, p, c);
      CombineMergedCovers(bs, p, c);
      CombineMergedShape(bs, p, c);
    } else {
      assert Combine(bs, p, c).boxes == bs;
      if BandEnd(bs, c) == |bs| {
        assert Combine(bs, p, c) == Combined(bs, c);
      }
    }
  }
}
