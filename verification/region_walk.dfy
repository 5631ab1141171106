/**
 * Correctness of the band walk of rdp_region_op. The walk keeps a scan line
 * `ybot`: everything above it has been emitted, everything at or below it
 * is still to come from the unvisited bands. Each turn emits the rows between
 * the old and the new scan line, so the output plus what remains always
 * covers exactly the union (or intersection) of the operands.
 */
module RegionWalk {
  import opened Region
  import opened RegionBands
  import opened RegionRows

  // -----------------------------------------------------------------------
  // The pieces of one turn of the loop, named
  // -----------------------------------------------------------------------

  function Band(r: seq<Box>, i: nat): seq<Box>
    requires i <= |r|
  {
    r[i..BandEnd(r, i)]
  }

  /** First boxes of the two current bands. */
  function HeadA(r1: seq<Box>, st: OpState): Box requires st.i1 < |r1| { r1[st.i1] }
  function HeadB(r2: seq<Box>, st: OpState): Box requires st.i2 < |r2| { r2[st.i2] }

  function YTop(r1: seq<Box>, r2: seq<Box>, st: OpState): int
    requires st.i1 < |r1| && st.i2 < |r2|
  {
    if r1[st.i1].y1 < r2[st.i2].y1 then r2[st.i2].y1 else r1[st.i1].y1
  }

  function YBot(r1: seq<Box>, r2: seq<Box>, st: OpState): int
    requires st.i1 < |r1| && st.i2 < |r2|
  {
    Min(r1[st.i1].y2, r2[st.i2].y2)
  }

  /** Output after the non-overlap callback. */
  function Out1(kind: OpKind, r1: seq<Box>, r2: seq<Box>, st: OpState): seq<Box>
    requires st.i1 < |r1| && st.i2 < |r2|
  {
    var a := r1[st.i1];
    var b := r2[st.i2];
    if a.y1 < b.y1 then
      var top := Max(a.y1, st.ybot);
      var bot := Min(a.y2, b.y1);
      if top != bot then NonOverlapEmit(kind, st.out, Band(r1, st.i1), top, bot) else st.out
    else if b.y1 < a.y1 then
      var top := Max(b.y1, st.ybot);
      var bot := Min(b.y2, a.y1);
      if top != bot then NonOverlapEmit(kind, st.out, Band(r2, st.i2), top, bot) else st.out
    else st.out
  }

  function C1(kind: OpKind, r1: seq<Box>, r2: seq<Box>, st: OpState): Combined
    requires st.i1 < |r1| && st.i2 < |r2|
  {
    CombineNew(Out1(kind, r1, r2, st), st.prevBand, |st.out|)
  }

  function Out3(kind: OpKind, r1: seq<Box>, r2: seq<Box>, st: OpState): seq<Box>
    requires st.i1 < |r1| && st.i2 < |r2|
  {
    var c1 := C1(kind, r1, r2, st);
    if YBot(r1, r2, st) > YTop(r1, r2, st) then
      Overlap(kind, c1.boxes, Band(r1, st.i1), Band(r2, st.i2), YTop(r1, r2, st), YBot(r1, r2, st))
    else c1.boxes
  }

  function C2(kind: OpKind, r1: seq<Box>, r2: seq<Box>, st: OpState): Combined
    requires st.i1 < |r1| && st.i2 < |r2|
  {
    CombineNew(Out3(kind, r1, r2, st), C1(kind, r1, r2, st).prevBand, |C1(kind, r1, r2, st).boxes|)
  }

  lemma {:induction false} StepUnfold(kind: OpKind, r1: seq<Box>, r2: seq<Box>, st: OpState)
    requires st.i1 < |r1| && st.i2 < |r2|
    ensures OpStep(kind, r1, r2, st) ==
      OpState(C2(kind, r1, r2, st).boxes, C2(kind, r1, r2, st).prevBand,
              if r1[st.i1].y2 == YBot(r1, r2, st) then BandEnd(r1, st.i1) else st.i1,
              if r2[st.i2].y2 == YBot(r1, r2, st) then BandEnd(r2, st.i2) else st.i2,
              YBot(r1, r2, st))
  {
  }

  /** Points the non-overlap callback adds in this turn. */
  predicate NonOv(kind: OpKind, r1: seq<Box>, r2: seq<Box>, st: OpState, x: int, y: int)
    requires st.i1 < |r1| && st.i2 < |r2|
  {
    var a := r1[st.i1];
    var b := r2[st.i2];
    kind == UnionOp &&
    if a.y1 < b.y1 then Max(a.y1, st.ybot) <= y < Min(a.y2, b.y1) && InSpan(Band(r1, st.i1), x)
    else if b.y1 < a.y1 then Max(b.y1, st.ybot) <= y < Min(b.y2, a.y1) && InSpan(Band(r2, st.i2), x)
    else false
  }

  /** Points the overlap callback adds in this turn. */
  predicate Ov(kind: OpKind, r1: seq<Box>, r2: seq<Box>, st: OpState, x: int, y: int)
    requires st.i1 < |r1| && st.i2 < |r2|
  {
    YTop(r1, r2, st) <= y < YBot(r1, r2, st) &&
    Mix(kind, InSpan(Band(r1, st.i1), x), InSpan(Band(r2, st.i2), x))
  }

  // -----------------------------------------------------------------------
  // Invariant
  // -----------------------------------------------------------------------

  /** An operand's cursor: i starts a band, everything before it ends at or above the scan line, its band reaches below. */
  predicate Cursor(r: seq<Box>, i: nat, ybot: int)
  {
    Banded(r) && i <= |r| && BandStart(r, i) &&
    (0 < i ==> r[i - 1].y2 <= ybot) &&
    (i < |r| ==> ybot < r[i].y2)
  }

  /** The output so far: banded, ending at or above the scan line, its last band starting at prev. */
  predicate Emitted(out: seq<Box>, prev: nat, ybot: int)
  {
    Banded(out) && (|out| > 0 ==> out[|out| - 1].y2 <= ybot) && LastBand(out, prev)
  }

  /** What the walk keeps true between turns. */
  predicate Inv(r1: seq<Box>, r2: seq<Box>, st: OpState)
  {
    Cursor(r1, st.i1, st.ybot) && Cursor(r2, st.i2, st.ybot) &&
    (st.i1 < |r1| && st.i2 < |r2| ==> st.ybot <= Max(r1[st.i1].y1, r2[st.i2].y1)) &&
    Emitted(st.out, st.prevBand, st.ybot)
  }

  /** What remains to be emitted: the unvisited parts of both operands at or below the scan line. */
  predicate Rem(kind: OpKind, r1: seq<Box>, r2: seq<Box>, st: OpState, x: int, y: int)
    requires st.i1 <= |r1| && st.i2 <= |r2|
  {
    st.ybot <= y && Mix(kind, Covers(r1[st.i1..], x, y), Covers(r2[st.i2..], x, y))
  }

  // -----------------------------------------------------------------------
  // Facts about the remaining part of an operand
  // -----------------------------------------------------------------------

  /** Above the bottom of the band at i, the rest of the operand is that band's columns below its top. */
  lemma {:induction false} RemainingInBand(r: seq<Box>, i: nat, x: int, y: int)
    requires Banded(r) && i < |r| && y < r[i].y2
    ensures Covers(r[i..], x, y) <==> r[i].y1 <= y && InSpan(Band(r, i), x)
  {
    var e := BandEnd(r, i);
    BandFacts(r, i);
    assert r[i..] == Band(r, i) + r[e..];
    CoversConcat(Band(r, i), r[e..], x, y);
    RowCovers(Band(r, i), r[i].y1, r[i].y2, x, y);
    forall k | 0 <= k < |r[e..]| ensures !InBox(r[e..][k], x, y) {
      assert r[e..][k] == r[e + k];
    }
  }

  /** At or below the bottom of the band at i, the band contributes nothing. */
  lemma {:induction false} RemainingPastBand(r: seq<Box>, i: nat, x: int, y: int)
    requires Banded(r) && i < |r| && r[i].y2 <= y
    ensures Covers(r[i..], x, y) <==> Covers(r[BandEnd(r, i)..], x, y)
  {
    var e := BandEnd(r, i);
    BandFacts(r, i);
    assert r[i..] == Band(r, i) + r[e..];
    CoversConcat(Band(r, i), r[e..], x, y);
    RowCovers(Band(r, i), r[i].y1, r[i].y2, x, y);
  }

  /** Nothing of the output reaches the scan line. */
  lemma {:induction false} OutAbove(out: seq<Box>, ybot: int, x: int, y: int)
    requires Banded(out) && (|out| > 0 ==> out[|out| - 1].y2 <= ybot) && ybot <= y
    ensures !Covers(out, x, y)
  {
    if Covers(out, x, y) {
      var k :| 0 <= k < |out| && InBox(out[k], x, y);
      LastLowest(out);
    }
  }

  lemma {:induction false} BandSpans(r: seq<Box>, i: nat)
    requires Banded(r) && i < |r|
    ensures Spans(Band(r, i)) && |Band(r, i)| > 0
    ensures Row(Band(r, i), r[i].y1, r[i].y2)
  {
    BandFacts(r, i);
    RowSpans(Band(r, i), r[i].y1, r[i].y2);
  }

  // -----------------------------------------------------------------------
  // One turn
  // -----------------------------------------------------------------------

  /** The band at p stays the last one when boxes with other tops follow it. */
  lemma {:induction false} BandEndPrefix(a: seq<Box>, b: seq<Box>, p: nat)
    requires p < |a| && BandEnd(a, p) == |a|
    requires |b| > 0 ==> b[0].y1 != a[p].y1
    ensures BandEnd(a + b, p) == |a|
    decreases |a| - p
  {
    var s := a + b;
    if p + 1 < |a| {
      assert s[p + 1] == a[p + 1] && s[p] == a[p];
      BandEndPrefix(a, b, p + 1);
    } else if p + 1 < |s| {
      assert s[p + 1] == b[0] && s[p] == a[p];
    }
  }

  /** Appending one row below the output and coalescing it with the previous band. */
  lemma {:induction false} EmitRow(out: seq<Box>, prev: nat, row: seq<Box>, y1: int, y2: int)
    requires Banded(out) && LastBand(out, prev) && Row(row, y1, y2)
    requires |out| > 0 ==> out[|out| - 1].y2 <= y1
    ensures var c := CombineNew(out + row, prev, |out|);
      Banded(c.boxes) && LastBand(c.boxes, c.prevBand) &&
      (|row| == 0 ==> c == Combined(out, prev)) &&
      (|row| > 0 ==> |c.boxes| > 0 && c.boxes[|c.boxes| - 1].y2 == y2)
    ensures forall x, y :: Covers(CombineNew(out + row, prev, |out|).boxes, x, y) <==>
      Covers(out, x, y) || (y1 <= y < y2 && InSpan(row, x))
  {
    var s := out + row;
    forall x, y ensures Covers(s, x, y) <==> Covers(out, x, y) || (y1 <= y < y2 && InSpan(row, x)) {
      CoversConcat(out, row, x, y);
      RowCovers(row, y1, y2, x, y);
    }
    if |row| == 0 {
      assert s == out;
    } else {
      AppendRow(out, row, y1, y2);
      if |out| > 0 {
        var last := out[|out| - 1];
        assert out[prev].y1 == last.y1 && last.y1 < last.y2;
        BandEndPrefix(out, row, prev);
        if 0 < prev {
          assert s[prev - 1] == out[prev - 1] && s[prev] == out[prev];
        }
      }
      CombineSound(s, prev, |out|);
    }
  }

  /** The non-overlap phase keeps the output banded and ends above both YTop and YBot. */
  lemma {:induction false} Phase1(kind: OpKind, r1: seq<Box>, r2: seq<Box>, st: OpState)
    requires Inv(r1, r2, st) && st.i1 < |r1| && st.i2 < |r2|
    ensures Emitted(C1(kind, r1, r2, st).boxes, C1(kind, r1, r2, st).prevBand, Min(YTop(r1, r2, st), YBot(r1, r2, st)))
  {
    var a := r1[st.i1];
    var b := r2[st.i2];
    assert a.y1 < a.y2 && b.y1 < b.y2;
    var ytop, ybot := YTop(r1, r2, st), YBot(r1, r2, st);
    assert st.ybot <= ytop && st.ybot < ybot;
    if kind == UnionOp && a.y1 < b.y1 && Max(a.y1, st.ybot) != Min(a.y2, b.y1) {
      var top, bot := Max(a.y1, st.ybot), Min(a.y2, b.y1);
      assert Out1(kind, r1, r2, st) == st.out + NonOverlap(Band(r1, st.i1), top, bot);
      PhaseCopy(kind, r1, r2, st, r1, st.i1, top, bot);
    } else if kind == UnionOp && b.y1 < a.y1 && Max(b.y1, st.ybot) != Min(b.y2, a.y1) {
      var top, bot := Max(b.y1, st.ybot), Min(b.y2, a.y1);
      assert Out1(kind, r1, r2, st) == st.out + NonOverlap(Band(r2, st.i2), top, bot);
      PhaseCopy(kind, r1, r2, st, r2, st.i2, top, bot);
    } else {
      assert Out1(kind, r1, r2, st) == st.out;
      assert C1(kind, r1, r2, st) == Combined(st.out, st.prevBand);
    }
  }

  /** The non-overlap phase copied rows [top, bot) of the band at i of r. */
  lemma {:induction false} PhaseCopy(kind: OpKind, r1: seq<Box>, r2: seq<Box>, st: OpState, r: seq<Box>, i: nat, top: int, bot: int)
    requires st.i1 < |r1| && st.i2 < |r2|
    requires Emitted(st.out, st.prevBand, top) && Banded(r) && i < |r| && top < bot
    requires bot <= Min(YTop(r1, r2, st), YBot(r1, r2, st))
    requires Out1(kind, r1, r2, st) == st.out + NonOverlap(Band(r, i), top, bot)
    ensures Emitted(C1(kind, r1, r2, st).boxes, C1(kind, r1, r2, st).prevBand, Min(YTop(r1, r2, st), YBot(r1, r2, st)))
  {
    PhaseEmit(st.out, st.prevBand, r, i, top, bot);
  }

  /** The non-overlap phase adds exactly the points NonOv names. */
  lemma {:induction false} Phase1Covers(kind: OpKind, r1: seq<Box>, r2: seq<Box>, st: OpState, x: int, y: int)
    requires Inv(r1, r2, st) && st.i1 < |r1| && st.i2 < |r2|
    ensures Covers(C1(kind, r1, r2, st).boxes, x, y) <==> Covers(st.out, x, y) || NonOv(kind, r1, r2, st, x, y)
  {
    var a := r1[st.i1];
    var b := r2[st.i2];
    assert a.y1 < a.y2 && b.y1 < b.y2;
    if kind == UnionOp && a.y1 < b.y1 && Max(a.y1, st.ybot) != Min(a.y2, b.y1) {
      var top, bot := Max(a.y1, st.ybot), Min(a.y2, b.y1);
      PhaseEmitCovers(st.out, st.prevBand, r1, st.i1, top, bot, x, y);
      assert Out1(kind, r1, r2, st) == st.out + NonOverlap(Band(r1, st.i1), top, bot);
    } else if kind == UnionOp && b.y1 < a.y1 && Max(b.y1, st.ybot) != Min(b.y2, a.y1) {
      var top, bot := Max(b.y1, st.ybot), Min(b.y2, a.y1);
      PhaseEmitCovers(st.out, st.prevBand, r2, st.i2, top, bot, x, y);
      assert Out1(kind, r1, r2, st) == st.out + NonOverlap(Band(r2, st.i2), top, bot);
    } else {
      assert Out1(kind, r1, r2, st) == st.out;
      assert C1(kind, r1, r2, st) == Combined(st.out, st.prevBand);
    }
  }

  /** A row copied from the band at i into rows [top, bot) keeps the output banded. */
  lemma {:induction false} PhaseEmit(out: seq<Box>, prev: nat, r: seq<Box>, i: nat, top: int, bot: int)
    requires Emitted(out, prev, top) && Banded(r) && i < |r| && top < bot
    ensures var c := CombineNew(out + NonOverlap(Band(r, i), top, bot), prev, |out|);
      Emitted(c.boxes, c.prevBand, bot)
  {
    BandSpans(r, i);
    NonOverlapRow(Band(r, i), top, bot);
    EmitRow(out, prev, NonOverlap(Band(r, i), top, bot), top, bot);
  }

  /** A row copied from the band at i into rows [top, bot) adds exactly that band's columns there. */
  lemma {:induction false} PhaseEmitCovers(out: seq<Box>, prev: nat, r: seq<Box>, i: nat, top: int, bot: int, x: int, y: int)
    requires Emitted(out, prev, top) && Banded(r) && i < |r| && top < bot
    ensures Covers(CombineNew(out + NonOverlap(Band(r, i), top, bot), prev, |out|).boxes, x, y) <==>
      Covers(out, x, y) || (top <= y < bot && InSpan(Band(r, i), x))
  {
    BandSpans(r, i);
    NonOverlapRow(Band(r, i), top, bot);
    EmitRow(out, prev, NonOverlap(Band(r, i), top, bot), top, bot);
  }

  /** The overlap phase keeps the output banded and ends above YBot. */
  lemma {:induction false} Phase2(kind: OpKind, r1: seq<Box>, r2: seq<Box>, st: OpState)
    requires Banded(r1) && Banded(r2) && st.i1 < |r1| && st.i2 < |r2|
    requires Emitted(C1(kind, r1, r2, st).boxes, C1(kind, r1, r2, st).prevBand, Min(YTop(r1, r2, st), YBot(r1, r2, st)))
    ensures Emitted(C2(kind, r1, r2, st).boxes, C2(kind, r1, r2, st).prevBand, YBot(r1, r2, st))
  {
    var c1 := C1(kind, r1, r2, st);
    var ytop, ybot := YTop(r1, r2, st), YBot(r1, r2, st);
    if ybot > ytop {
      var o := Overlap(kind, c1.boxes, Band(r1, st.i1), Band(r2, st.i2), ytop, ybot);
      assert Out3(kind, r1, r2, st) == o;
      assert C2(kind, r1, r2, st) == CombineNew(o, c1.prevBand, |c1.boxes|);
      OverlapEmit(kind, c1.boxes, c1.prevBand, r1, st.i1, r2, st.i2, ytop, ybot);
    } else {
      assert Out3(kind, r1, r2, st) == c1.boxes;
      assert C2(kind, r1, r2, st) == c1;
    }
  }

  /** The overlap phase adds exactly the points Ov names. */
  lemma {:induction false} Phase2Covers(kind: OpKind, r1: seq<Box>, r2: seq<Box>, st: OpState, x: int, y: int)
    requires Banded(r1) && Banded(r2) && st.i1 < |r1| && st.i2 < |r2|
    requires Emitted(C1(kind, r1, r2, st).boxes, C1(kind, r1, r2, st).prevBand, Min(YTop(r1, r2, st), YBot(r1, r2, st)))
    ensures Covers(C2(kind, r1, r2, st).boxes, x, y) <==>
      Covers(C1(kind, r1, r2, st).boxes, x, y) || Ov(kind, r1, r2, st, x, y)
  {
    var c1 := C1(kind, r1, r2, st);
    if YBot(r1, r2, st) > YTop(r1, r2, st) {
      assert Out3(kind, r1, r2, st) ==
        Overlap(kind, c1.boxes, Band(r1, st.i1), Band(r2, st.i2), YTop(r1, r2, st), YBot(r1, r2, st));
      OverlapEmitCovers(kind, c1.boxes, c1.prevBand, r1, st.i1, r2, st.i2, YTop(r1, r2, st), YBot(r1, r2, st), x, y);
    } else {
      assert Out3(kind, r1, r2, st) == c1.boxes;
      assert C2(kind, r1, r2, st) == c1;
    }
  }

  /** The overlap callback's row in [ytop, ybot), appended and coalesced, keeps the output banded. */
  lemma {:induction false} OverlapEmit(kind: OpKind, out: seq<Box>, prev: nat, r1: seq<Box>, i1: nat, r2: seq<Box>, i2: nat, ytop: int, ybot: int)
    requires Emitted(out, prev, ytop) && Banded(r1) && Banded(r2)
    requires i1 < |r1| && i2 < |r2| && ytop < ybot
    ensures var c := CombineNew(Overlap(kind, out, Band(r1, i1), Band(r2, i2), ytop, ybot), prev, |out|);
      Emitted(c.boxes, c.prevBand, ybot)
  {
    BandSpans(r1, i1);
    BandSpans(r2, i2);
    var row := OverlapRow(kind, Band(r1, i1), Band(r2, i2), ytop, ybot);
    OverlapSound(kind, out, Band(r1, i1), Band(r2, i2), ytop, ybot);
    EmitRow(out, prev, row, ytop, ybot);
    if |out| > 0 { LastLowest(out); }
  }

  /** The overlap callback's row in [ytop, ybot) adds exactly the mixed columns of both bands there. */
  lemma {:induction false} OverlapEmitCovers(kind: OpKind, out: seq<Box>, prev: nat, r1: seq<Box>, i1: nat, r2: seq<Box>, i2: nat, ytop: int, ybot: int, x: int, y: int)
    requires Emitted(out, prev, ytop) && Banded(r1) && Banded(r2)
    requires i1 < |r1| && i2 < |r2| && ytop < ybot
    ensures Covers(CombineNew(Overlap(kind, out, Band(r1, i1), Band(r2, i2), ytop, ybot), prev, |out|).boxes, x, y) <==>
      Covers(out, x, y) || (ytop <= y < ybot && Mix(kind, InSpan(Band(r1, i1), x), InSpan(Band(r2, i2), x)))
  {
    BandSpans(r1, i1);
    BandSpans(r2, i2);
    var row := OverlapRow(kind, Band(r1, i1), Band(r2, i2), ytop, ybot);
    OverlapSound(kind, out, Band(r1, i1), Band(r2, i2), ytop, ybot);
    EmitRow(out, prev, row, ytop, ybot);
  }

  /** One turn keeps the invariant. */
  lemma {:induction false} StepInv(kind: OpKind, r1: seq<Box>, r2: seq<Box>, st: OpState)
    requires Inv(r1, r2, st) && st.i1 < |r1| && st.i2 < |r2|
    ensures Inv(r1, r2, OpStep(kind, r1, r2, st))
  {
    StepUnfold(kind, r1, r2, st);
    NextInv(kind, r1, r2, st);
  }

  lemma {:induction false} NextInv(kind: OpKind, r1: seq<Box>, r2: seq<Box>, st: OpState)
    requires Inv(r1, r2, st) && st.i1 < |r1| && st.i2 < |r2|
    ensures Inv(r1, r2, OpState(C2(kind, r1, r2, st).boxes, C2(kind, r1, r2, st).prevBand,
              if r1[st.i1].y2 == YBot(r1, r2, st) then BandEnd(r1, st.i1) else st.i1,
              if r2[st.i2].y2 == YBot(r1, r2, st) then BandEnd(r2, st.i2) else st.i2,
              YBot(r1, r2, st)))
  {
    StepEmitted(kind, r1, r2, st);
    InvFrom(r1, r2, st, C2(kind, r1, r2, st).boxes, C2(kind, r1, r2, st).prevBand);
  }

  /** Any well-formed output together with the advanced cursors satisfies the invariant. */
  lemma {:induction false} InvFrom(r1: seq<Box>, r2: seq<Box>, st: OpState, out: seq<Box>, prev: nat)
    requires Inv(r1, r2, st) && st.i1 < |r1| && st.i2 < |r2|
    requires Emitted(out, prev, YBot(r1, r2, st))
    ensures Inv(r1, r2, OpState(out, prev,
              if r1[st.i1].y2 == YBot(r1, r2, st) then BandEnd(r1, st.i1) else st.i1,
              if r2[st.i2].y2 == YBot(r1, r2, st) then BandEnd(r2, st.i2) else st.i2,
              YBot(r1, r2, st)))
  {
    var ybot := YBot(r1, r2, st);
    var i1 := if r1[st.i1].y2 == ybot then BandEnd(r1, st.i1) else st.i1;
    var i2 := if r2[st.i2].y2 == ybot then BandEnd(r2, st.i2) else st.i2;
    Advance(r1, st.i1, st.ybot, ybot, i1);
    Advance(r2, st.i2, st.ybot, ybot, i2);
  }

  lemma {:induction false} StepEmitted(kind: OpKind, r1: seq<Box>, r2: seq<Box>, st: OpState)
    requires Inv(r1, r2, st) && st.i1 < |r1| && st.i2 < |r2|
    ensures Emitted(C2(kind, r1, r2, st).boxes, C2(kind, r1, r2, st).prevBand, YBot(r1, r2, st))
  {
    Phase1(kind, r1, r2, st);
    Phase2(kind, r1, r2, st);
  }

  /** Moving the scan line down to ybot' passes the band at i exactly when it ends there. */
  lemma {:induction false} Advance(r: seq<Box>, i: nat, ybot: int, ybot': int, i': nat)
    requires Banded(r) && i < |r| && BandStart(r, i)
    requires (0 < i ==> r[i - 1].y2 <= ybot) && ybot < ybot' <= r[i].y2
    requires i' == if r[i].y2 == ybot' then BandEnd(r, i) else i
    ensures Cursor(r, i', ybot')
    ensures i' != i && i' < |r| ==> ybot' <= r[i'].y1
  {
    BandFacts(r, i);
    if i' != i && 0 < i' {
      assert r[i' - 1].y2 == r[i].y2;
    }
  }

  /** One turn moves exactly the points between the old and the new scan line into the output. */
  lemma {:induction false} StepCovers(kind: OpKind, r1: seq<Box>, r2: seq<Box>, st: OpState, x: int, y: int)
    requires Inv(r1, r2, st) && st.i1 < |r1| && st.i2 < |r2|
    ensures var next := OpStep(kind, r1, r2, st);
      Covers(st.out, x, y) || Rem(kind, r1, r2, st, x, y) <==>
      Covers(next.out, x, y) || Rem(kind, r1, r2, next, x, y)
  {
    StepUnfold(kind, r1, r2, st);
    StepOutCovers(kind, r1, r2, st, x, y);
    CoversFrom(kind, r1, r2, st, C2(kind, r1, r2, st).boxes, C2(kind, r1, r2, st).prevBand, x, y);
  }

  lemma {:induction false} StepOutCovers(kind: OpKind, r1: seq<Box>, r2: seq<Box>, st: OpState, x: int, y: int)
    requires Inv(r1, r2, st) && st.i1 < |r1| && st.i2 < |r2|
    ensures Covers(C2(kind, r1, r2, st).boxes, x, y) <==>
      Covers(st.out, x, y) || NonOv(kind, r1, r2, st, x, y) || Ov(kind, r1, r2, st, x, y)
  {
    Phase1(kind, r1, r2, st);
    Phase1Covers(kind, r1, r2, st, x, y);
    Phase2Covers(kind, r1, r2, st, x, y);
  }

  /** The point (x, y) is accounted for after the turn exactly when it was before. */
  lemma {:induction false} CoversFrom(kind: OpKind, r1: seq<Box>, r2: seq<Box>, st: OpState, out: seq<Box>, prev: nat, x: int, y: int)
    requires Inv(r1, r2, st) && st.i1 < |r1| && st.i2 < |r2|
    requires Covers(out, x, y) <==>
      Covers(st.out, x, y) || NonOv(kind, r1, r2, st, x, y) || Ov(kind, r1, r2, st, x, y)
    ensures var next := OpState(out, prev,
              if r1[st.i1].y2 == YBot(r1, r2, st) then BandEnd(r1, st.i1) else st.i1,
              if r2[st.i2].y2 == YBot(r1, r2, st) then BandEnd(r2, st.i2) else st.i2,
              YBot(r1, r2, st));
      Covers(st.out, x, y) || Rem(kind, r1, r2, st, x, y) <==>
      Covers(out, x, y) || Rem(kind, r1, r2, next, x, y)
  {
    var a := r1[st.i1];
    var b := r2[st.i2];
    var ybot := YBot(r1, r2, st);
    var next := OpState(out, prev,
      if a.y2 == ybot then BandEnd(r1, st.i1) else st.i1,
      if b.y2 == ybot then BandEnd(r2, st.i2) else st.i2,
      ybot);
    if y < st.ybot {
      // nothing new above the old scan line
      assert !Rem(kind, r1, r2, st, x, y) && !Rem(kind, r1, r2, next, x, y);
      assert !NonOv(kind, r1, r2, st, x, y) && !Ov(kind, r1, r2, st, x, y);
    } else if y < ybot {
      CoversBetween(kind, r1, r2, st, x, y);
      assert !Rem(kind, r1, r2, next, x, y);
    } else {
      CoversBelow(kind, r1, r2, st, x, y);
    }
  }

  /** Between the scan lines the remaining operands give exactly what this turn emits. */
  lemma {:induction false} CoversBetween(kind: OpKind, r1: seq<Box>, r2: seq<Box>, st: OpState, x: int, y: int)
    requires Inv(r1, r2, st) && st.i1 < |r1| && st.i2 < |r2|
    requires st.ybot <= y < YBot(r1, r2, st)
    ensures !Covers(st.out, x, y)
    ensures Rem(kind, r1, r2, st, x, y) <==> NonOv(kind, r1, r2, st, x, y) || Ov(kind, r1, r2, st, x, y)
  {
    OutAbove(st.out, st.ybot, x, y);
    RemainingInBand(r1, st.i1, x, y);
    RemainingInBand(r2, st.i2, x, y);
    StepBetween(kind, r1, r2, st, x, y);
  }

  /** Below the new scan line nothing is emitted and the passed bands contribute nothing. */
  lemma {:induction false} CoversBelow(kind: OpKind, r1: seq<Box>, r2: seq<Box>, st: OpState, x: int, y: int)
    requires Inv(r1, r2, st) && st.i1 < |r1| && st.i2 < |r2|
    requires YBot(r1, r2, st) <= y
    ensures !Covers(st.out, x, y) && !NonOv(kind, r1, r2, st, x, y) && !Ov(kind, r1, r2, st, x, y)
    ensures var ybot := YBot(r1, r2, st);
      var i1 := if r1[st.i1].y2 == ybot then BandEnd(r1, st.i1) else st.i1;
      var i2 := if r2[st.i2].y2 == ybot then BandEnd(r2, st.i2) else st.i2;
      (Covers(r1[st.i1..], x, y) <==> Covers(r1[i1..], x, y)) &&
      (Covers(r2[st.i2..], x, y) <==> Covers(r2[i2..], x, y))
  {
    var ybot := YBot(r1, r2, st);
    OutAbove(st.out, st.ybot, x, y);
    if r1[st.i1].y2 == ybot { RemainingPastBand(r1, st.i1, x, y); }
    if r2[st.i2].y2 == ybot { RemainingPastBand(r2, st.i2, x, y); }
  }

  /** Between the scan lines: the emitted rows are what both current bands cover there. */
  lemma {:induction false} StepBetween(kind: OpKind, r1: seq<Box>, r2: seq<Box>, st: OpState, x: int, y: int)
    requires Inv(r1, r2, st) && st.i1 < |r1| && st.i2 < |r2|
    requires st.ybot <= y < YBot(r1, r2, st)
    ensures Mix(kind, r1[st.i1].y1 <= y && InSpan(Band(r1, st.i1), x), r2[st.i2].y1 <= y && InSpan(Band(r2, st.i2), x))
      <==> NonOv(kind, r1, r2, st, x, y) || Ov(kind, r1, r2, st, x, y)
  {
  }

  /** The loop keeps the invariant and the covered points. */
  lemma {:induction false} LoopSound(kind: OpKind, r1: seq<Box>, r2: seq<Box>, st: OpState)
    requires Inv(r1, r2, st) && st.i1 < |r1| && st.i2 < |r2|
    ensures Inv(r1, r2, OpLoop(kind, r1, r2, st))
    ensures forall x, y :: Covers(st.out, x, y) || Rem(kind, r1, r2, st, x, y) <==>
      Covers(OpLoop(kind, r1, r2, st).out, x, y) || Rem(kind, r1, r2, OpLoop(kind, r1, r2, st), x, y)
    decreases |r1| - st.i1 + |r2| - st.i2
  {
    var next := OpStep(kind, r1, r2, st);
    StepInv(kind, r1, r2, st);
    forall x, y ensures Covers(st.out, x, y) || Rem(kind, r1, r2, st, x, y) <==>
      Covers(next.out, x, y) || Rem(kind, r1, r2, next, x, y) {
      StepCovers(kind, r1, r2, st, x, y);
    }
    if next.i1 < |r1| && next.i2 < |r2| {
      LoopSound(kind, r1, r2, next);
    }
  }
}
