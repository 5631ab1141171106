/**
 * Rectangle geometry of the hardware decoding path (rfx_platform_cvt.c):
 * the overlap and containment tests, the clip windows a tile is drawn
 * through, the comparison of two clipped tiles, and the de-duplication of
 * copy rectangles. Coordinates are the 16-bit fields of RFX_RECT; sums
 * such as x + width are formed in int, as C promotes them.
 */
module CvtGeometry {
  import opened Common
  import RfxParse

  type Rect = RfxParse.RfxRect

  /** rfx_cvt_rect: a tile rectangle and the window it is clipped to. */
  datatype CvtRect = CvtRect(rect: Rect, clip: Rect)

  function Right(r: Rect): int { r.x + r.width }
  function Bottom(r: Rect): int { r.y + r.height }

  /** Pixel (px, py) lies in r; the right and bottom edges are exclusive. */
  predicate HasPoint(r: Rect, px: int, py: int)
  {
    r.x <= px < Right(r) && r.y <= py < Bottom(r)
  }

  /** rfx_cvt_is_rect_in_rect: all four edges of p lie within q. */
  predicate InRect(p: Rect, q: Rect)
  {
    p.x >= q.x && p.y >= q.y && Right(p) <= Right(q) && Bottom(p) <= Bottom(q)
  }

  /** rfx_cvt_is_overlapping */
  predicate Overlapping(p: Rect, q: Rect)
  {
    !(Right(p) <= q.x || p.x >= Right(q) || Bottom(p) <= q.y || p.y >= Bottom(q))
  }

  /** A rect with at least one pixel. */
  predicate NonEmpty(r: Rect)
  {
    r.width > 0 && r.height > 0
  }

  /**
   * Two rects that share a pixel overlap, and two non-empty rects overlap
   * only if they share a pixel; the test is symmetric, and rects that only
   * touch along an edge do not overlap.
   */
  lemma {:induction false} OverlappingSharesPixel(p: Rect, q: Rect)
    ensures (exists px, py :: HasPoint(p, px, py) && HasPoint(q, px, py)) ==> Overlapping(p, q)
    ensures Overlapping(p, q) && NonEmpty(p) && NonEmpty(q) ==>
      exists px, py :: HasPoint(p, px, py) && HasPoint(q, px, py)
    ensures Overlapping(p, q) == Overlapping(q, p)
    ensures Right(p) == q.x || Bottom(p) == q.y ==> !Overlapping(p, q)
  {
    if Overlapping(p, q) && NonEmpty(p) && NonEmpty(q) {
      var px := if p.x < q.x then q.x else p.x;
      var py := if p.y < q.y then q.y else p.y;
      assert HasPoint(p, px, py) && HasPoint(q, px, py);
    }
  }

  /** For a non-empty p, containment means every pixel of p is a pixel of q. */
  lemma {:induction false} InRectHoldsPixels(p: Rect, q: Rect)
    requires NonEmpty(p)
    ensures InRect(p, q) <==> forall px, py :: HasPoint(p, px, py) ==> HasPoint(q, px, py)
  {
    if forall px, py :: HasPoint(p, px, py) ==> HasPoint(q, px, py) {
      assert HasPoint(p, p.x, p.y) ==> HasPoint(q, p.x, p.y);
      assert HasPoint(p, Right(p) - 1, Bottom(p) - 1) ==> HasPoint(q, Right(p) - 1, Bottom(p) - 1);
    }
  }

  // -----------------------------------------------------------------------
  // Clip windows (rfx_cvt_get_clip and the clip-list passes)
  // -----------------------------------------------------------------------

  /**
   * The message rects overlapping the tile, in message order, each paired
   * with the tile as one clipped entry.
   */
  function Clips(tile: Rect, msg: seq<Rect>): (cs: seq<CvtRect>)
    ensures |cs| <= |msg|
    ensures forall k :: 0 <= k < |cs| ==>
      cs[k].rect == tile && Overlapping(tile, cs[k].clip) && cs[k].clip in msg
  {
    if |msg| == 0 then []
    else
      var m := msg[|msg| - 1];
      var init := Clips(tile, msg[..|msg| - 1]);
      if Overlapping(tile, m) then init + [CvtRect(tile, m)] else init
  }

  /** Every message rect overlapping the tile appears as a clip of it. */
  lemma {:induction false} ClipsComplete(tile: Rect, msg: seq<Rect>, m: Rect)
    requires m in msg && Overlapping(tile, m)
    ensures CvtRect(tile, m) in Clips(tile, msg)
    decreases |msg|
  {
    var init := msg[..|msg| - 1];
    if m == msg[|msg| - 1] {
      assert Clips(tile, msg)[|Clips(tile, msg)| - 1] == CvtRect(tile, m);
    } else {
      assert msg == init + [msg[|msg| - 1]];
      assert m in init;
      ClipsComplete(tile, init, m);
    }
  }

  /**
   * rfx_cvt_get_clip: walks the message rects; the first one overlapping
   * the tile goes to the dst slot, every further one to consecutive ext
   * slots. Returns the number of overlapping rects.
   */
  method GetClip(msg: seq<Rect>, tile: Rect) returns (numMatch: nat, dst: Option<CvtRect>, ext: seq<CvtRect>)
    ensures numMatch == |Clips(tile, msg)|
    ensures numMatch == 0 ==> dst == None && ext == []
    ensures numMatch > 0 ==> dst == Some(Clips(tile, msg)[0]) && ext == Clips(tile, msg)[1..]
  {
    numMatch, dst, ext := 0, None, [];
    var i := 0;
    while i < |msg|
      invariant 0 <= i <= |msg|
      invariant numMatch == |Clips(tile, msg[..i])|
      invariant numMatch == 0 ==> dst == None && ext == []
      invariant numMatch > 0 ==> dst == Some(Clips(tile, msg[..i])[0]) && ext == Clips(tile, msg[..i])[1..]
    {
      assert msg[..i + 1][..i] == msg[..i];
      var m := msg[i];
      if Overlapping(tile, m) {
        if numMatch > 0 {
          ext := ext + [CvtRect(tile, m)];
        } else {
          dst := Some(CvtRect(tile, m));
        }
        numMatch := numMatch + 1;
      }
      i := i + 1;
    }
    assert msg[..|msg|] == msg;
  }

  /**
   * The entry for a tile in the first part of a clip list: its first clip
   * window, or the tile clipped to itself when no message rect overlaps it.
   */
  function FirstClip(tile: Rect, msg: seq<Rect>): CvtRect
  {
    var cs := Clips(tile, msg);
    if |cs| == 0 then CvtRect(tile, tile) else cs[0]
  }

  /** The further clip windows of a tile, which go to the second part. */
  function MoreClips(tile: Rect, msg: seq<Rect>): seq<CvtRect>
  {
    var cs := Clips(tile, msg);
    if |cs| == 0 then [] else cs[1..]
  }

  /** The first part of a clip list: one entry per tile, in tile order. */
  function Firsts(tiles: seq<Rect>, msg: seq<Rect>): (fs: seq<CvtRect>)
    ensures |fs| == |tiles|
    ensures forall i :: 0 <= i < |tiles| ==> fs[i] == FirstClip(tiles[i], msg)
  {
    if |tiles| == 0 then [] else Firsts(tiles[..|tiles| - 1], msg) + [FirstClip(tiles[|tiles| - 1], msg)]
  }

  /** The second part: the further clips of every tile, tile after tile. */
  function Mores(tiles: seq<Rect>, msg: seq<Rect>): seq<CvtRect>
  {
    if |tiles| == 0 then [] else Mores(tiles[..|tiles| - 1], msg) + MoreClips(tiles[|tiles| - 1], msg)
  }

  /** A tile occupies max(1, overlapping rects) entries of the clip list. */
  function ClipCount(tiles: seq<Rect>, msg: seq<Rect>): nat
  {
    if |tiles| == 0 then 0
    else
      var n := |Clips(tiles[|tiles| - 1], msg)|;
      ClipCount(tiles[..|tiles| - 1], msg) + (if n == 0 then 1 else n)
  }

  /**
   * The clip list handed to the driver: the first part (one entry per tile)
   * followed by the second part. Its length is the count the source adds
   * up tile by tile.
   */
  function ClipList(tiles: seq<Rect>, msg: seq<Rect>): (es: seq<CvtRect>)
    ensures |es| == ClipCount(tiles, msg)
  {
    ClipListCount(tiles, msg);
    Firsts(tiles, msg) + Mores(tiles, msg)
  }

  lemma {:induction false} ClipListCount(tiles: seq<Rect>, msg: seq<Rect>)
    ensures |Firsts(tiles, msg)| + |Mores(tiles, msg)| == ClipCount(tiles, msg)
  {
    if |tiles| > 0 {
      ClipListCount(tiles[..|tiles| - 1], msg);
    }
  }

  /** What a clip-list entry says about the tiles and the message. */
  predicate ClipOf(e: CvtRect, tiles: seq<Rect>, msg: seq<Rect>)
  {
    e.rect in tiles &&
    ((e.clip in msg && Overlapping(e.rect, e.clip)) ||
     (e.clip == e.rect && forall m :: m in msg ==> !Overlapping(e.rect, m)))
  }

  lemma {:induction false} MoresSound(tiles: seq<Rect>, msg: seq<Rect>)
    ensures forall e :: e in Mores(tiles, msg) ==> e.rect in tiles && e.clip in msg && Overlapping(e.rect, e.clip)
  {
    if |tiles| > 0 {
      var init := tiles[..|tiles| - 1];
      MoresSound(init, msg);
      assert tiles == init + [tiles[|tiles| - 1]];
      forall e | e in MoreClips(tiles[|tiles| - 1], msg)
        ensures e.rect in tiles && e.clip in msg && Overlapping(e.rect, e.clip)
      {
        var cs := Clips(tiles[|tiles| - 1], msg);
        var k :| 0 <= k < |cs[1..]| && cs[1..][k] == e;
        assert cs[k + 1] == e;
      }
    }
  }

  /**
   * Every entry of the clip list pairs one of the tiles with an
   * overlapping message rect, or with itself when nothing overlaps it.
   */
  lemma {:induction false} ClipListSound(tiles: seq<Rect>, msg: seq<Rect>)
    ensures forall e :: e in ClipList(tiles, msg) ==> ClipOf(e, tiles, msg)
  {
    MoresSound(tiles, msg);
    forall e | e in ClipList(tiles, msg) ensures ClipOf(e, tiles, msg) {
      if e in Firsts(tiles, msg) {
        var i :| 0 <= i < |tiles| && Firsts(tiles, msg)[i] == e;
        var cs := Clips(tiles[i], msg);
        if |cs| == 0 {
          forall m | m in msg ensures !Overlapping(e.rect, m) {
            if Overlapping(e.rect, m) {
              ClipsComplete(tiles[i], msg, m);
            }
          }
        }
      }
    }
  }

  lemma {:induction false} MoresComplete(tiles: seq<Rect>, msg: seq<Rect>, i: nat, k: nat)
    requires i < |tiles| && 0 < k < |Clips(tiles[i], msg)|
    ensures Clips(tiles[i], msg)[k] in Mores(tiles, msg)
    decreases |tiles|
  {
    var init := tiles[..|tiles| - 1];
    if i == |tiles| - 1 {
      assert Clips(tiles[i], msg)[k] == MoreClips(tiles[i], msg)[k - 1];
    } else {
      assert tiles[i] == init[i];
      MoresComplete(init, msg, i, k);
    }
  }

  /**
   * Every tile has an entry, and every (tile, overlapping message rect)
   * pair has one.
   */
  lemma {:induction false} ClipListComplete(tiles: seq<Rect>, msg: seq<Rect>, i: nat, m: Rect)
    requires i < |tiles|
    ensures exists e :: e in ClipList(tiles, msg) && e.rect == tiles[i]
    ensures m in msg && Overlapping(tiles[i], m) ==> CvtRect(tiles[i], m) in ClipList(tiles, msg)
  {
    var es := ClipList(tiles, msg);
    var fs, ms := Firsts(tiles, msg), Mores(tiles, msg);
    assert es == fs + ms;
    assert es[i] == FirstClip(tiles[i], msg);
    assert es[i] in es && es[i].rect == tiles[i];
    if m in msg && Overlapping(tiles[i], m) {
      ClipsComplete(tiles[i], msg, m);
      var cs := Clips(tiles[i], msg);
      var k :| 0 <= k < |cs| && cs[k] == CvtRect(tiles[i], m);
      if k > 0 {
        MoresComplete(tiles, msg, i, k);
        assert cs[k] in ms;
      } else {
        assert es[i] == cs[0];
      }
    }
  }

  /**
   * The clip list as the source builds it. When no message rect overlaps
   * a tile, the fallback entry gets its clip window set to the tile but
   * its rect is never written, so it keeps whatever the freshly allocated
   * buffer held there; stale stands for those contents.
   */
  function ClipListAsWritten(tiles: seq<Rect>, msg: seq<Rect>, stale: seq<Rect>): (es: seq<CvtRect>)
    requires |stale| >= |tiles|
    ensures |es| == ClipCount(tiles, msg)
  {
    ClipListCount(tiles, msg);
    var fs := seq(|tiles|, i requires 0 <= i < |tiles| =>
      if |Clips(tiles[i], msg)| == 0 then CvtRect(stale[i], tiles[i]) else FirstClip(tiles[i], msg));
    fs + Mores(tiles, msg)
  }

  /**
   * The two lists differ only in the rect of fallback entries: whenever
   * every tile overlaps some message rect, or the stale contents happen to
   * be the tiles themselves, the list as written is the clip list.
   */
  lemma {:induction false} ClipListAsWrittenAgrees(tiles: seq<Rect>, msg: seq<Rect>, stale: seq<Rect>)
    requires |stale| >= |tiles|
    requires forall i :: 0 <= i < |tiles| ==> |Clips(tiles[i], msg)| > 0 || stale[i] == tiles[i]
    ensures ClipListAsWritten(tiles, msg, stale) == ClipList(tiles, msg)
  {
    var aw := ClipListAsWritten(tiles, msg, stale);
    var es := ClipList(tiles, msg);
    forall k | 0 <= k < |es| ensures aw[k] == es[k] {
      if k < |tiles| {
        assert es[k] == FirstClip(tiles[k], msg);
      }
    }
  }

  /**
   * A tile no message rect overlaps: as written, its only entry does not
   * draw the tile's own pixel (0, 0) when the buffer held zeros there,
   * while the corrected entry does.
   */
  lemma ClipFallbackLosesTile()
    ensures var tile := RfxParse.RfxRect(0, 0, 64, 64);
      var msg := [RfxParse.RfxRect(100, 100, 10, 10)];
      var stale := [RfxParse.RfxRect(0, 0, 0, 0)];
      !Draws(ClipListAsWritten([tile], msg, stale)[0], 0, 0) && Draws(ClipList([tile], msg)[0], 0, 0)
  {
    var tile := RfxParse.RfxRect(0, 0, 64, 64);
    var msg := [RfxParse.RfxRect(100, 100, 10, 10)];
    assert !Overlapping(tile, msg[0]);
    assert msg[..0] == [];
    assert Clips(tile, msg) == [];
    assert ClipList([tile], msg)[0] == FirstClip(tile, msg);
  }

  // -----------------------------------------------------------------------
  // Comparing clipped tiles (rfx_cvt_rects_compare)
  // -----------------------------------------------------------------------

  /**
   * rfx_cvt_rects_compare: when both tiles lie inside their clip windows
   * only the tiles are compared; otherwise tile and clip must both agree.
   */
  predicate Same(a: CvtRect, b: CvtRect)
  {
    if InRect(a.rect, a.clip) && InRect(b.rect, b.clip) then a.rect == b.rect
    else a.rect == b.rect && a.clip == b.clip
  }

  /** The pixels an entry draws: its tile cut to its clip window. */
  predicate Draws(e: CvtRect, px: int, py: int)
  {
    HasPoint(e.rect, px, py) && HasPoint(e.clip, px, py)
  }

  /**
   * Entries the comparison calls the same draw the same pixels, and the
   * comparison is an equivalence.
   */
  lemma {:induction false} SameDrawsSame(a: CvtRect, b: CvtRect, c: CvtRect)
    ensures Same(a, a)
    ensures Same(a, b) ==> Same(b, a)
    ensures Same(a, b) && Same(b, c) ==> Same(a, c)
    ensures Same(a, b) ==> forall px, py :: Draws(a, px, py) <==> Draws(b, px, py)
  {
  }

  // -----------------------------------------------------------------------
  // Copy rectangles (rfx_cvt_rdvh_opt_copy_rects_optimize)
  // -----------------------------------------------------------------------

  /**
   * rfx_cvt_rdvh_opt_copy_rects_optimize: each entry is compared with the
   * last entry kept; one with the same tile is folded into it, and the
   * kept entry is then clipped to its whole tile.
   */
  function CopyOptimize(es: seq<CvtRect>): (r: seq<CvtRect>)
    requires |es| > 0
    ensures 1 <= |r| <= |es|
    ensures r[0].rect == es[0].rect
    ensures r[|r| - 1].rect == es[|es| - 1].rect
    ensures forall k :: 0 < k < |r| ==> r[k - 1].rect != r[k].rect
  {
    if |es| == 1 then es
    else
      var out := CopyOptimize(es[..|es| - 1]);
      var e := es[|es| - 1];
      var last := out[|out| - 1];
      if e.rect == last.rect then out[..|out| - 1] + [CvtRect(last.rect, last.rect)]
      else out + [e]
  }

  /**
   * Folding hands back only what it was given: each entry is an input
   * entry as it came, or a tile two neighbouring input entries share,
   * clipped to itself.
   */
  lemma {:induction false} CopyOptimizeFolds(es: seq<CvtRect>)
    requires |es| > 0
    ensures forall j :: 0 <= j < |CopyOptimize(es)| ==> FoldedFrom(es, CopyOptimize(es)[j])
    decreases |es|
  {
    if |es| > 1 {
      var init := es[..|es| - 1];
      var out := CopyOptimize(init);
      CopyOptimizeFolds(init);
      FoldedFromPrefix(init, es);
      var r := CopyOptimize(es);
      var e := es[|es| - 1];
      assert |r| - 1 <= |out|;
      forall j | 0 <= j < |r| - 1 ensures FoldedFrom(es, r[j]) {
        assert r[j] == out[j] && FoldedFrom(init, out[j]);
      }
      if e.rect == out[|out| - 1].rect {
        assert es[|es| - 2] == init[|init| - 1];
        assert FoldedFrom(es, r[|r| - 1]);
      } else {
        assert r[|r| - 1] == e;
      }
    }
  }

  /** An input without neighbouring duplicates comes back unchanged. */
  lemma {:induction false} CopyOptimizeKeepsDistinct(es: seq<CvtRect>)
    requires |es| > 0
    ensures (forall k :: 0 < k < |es| ==> es[k - 1].rect != es[k].rect) ==> CopyOptimize(es) == es
    decreases |es|
  {
    if |es| > 1 && forall k :: 0 < k < |es| ==> es[k - 1].rect != es[k].rect {
      var init := es[..|es| - 1];
      assert forall k :: 0 < k < |init| ==> init[k - 1].rect != init[k].rect by {
        forall k | 0 < k < |init| ensures init[k - 1].rect != init[k].rect {
          assert init[k - 1] == es[k - 1] && init[k] == es[k];
        }
      }
      CopyOptimizeKeepsDistinct(init);
      assert es[|es| - 2] == init[|init| - 1];
      assert es == init + [es[|es| - 1]];
    }
  }

  /**
   * An entry the folding can hand back: one of the entries as it came, or
   * a tile that two neighbouring entries share, clipped to itself.
   */
  predicate FoldedFrom(es: seq<CvtRect>, x: CvtRect)
  {
    x in es || (x.clip == x.rect && exists k :: 0 < k < |es| && es[k - 1].rect == x.rect && es[k].rect == x.rect)
  }

  /** What the folding can hand back from a prefix, it can hand back from the whole list. */
  lemma {:induction false} FoldedFromPrefix(init: seq<CvtRect>, es: seq<CvtRect>)
    requires |es| > 0 && init == es[..|es| - 1]
    ensures forall x :: FoldedFrom(init, x) ==> FoldedFrom(es, x)
  {
    forall x | FoldedFrom(init, x) ensures FoldedFrom(es, x) {
      if x !in init {
        var k :| 0 < k < |init| && init[k - 1].rect == x.rect && init[k].rect == x.rect;
        assert es[k - 1] == init[k - 1] && es[k] == init[k];
      }
    }
  }

  /** Some entry of es draws the pixel. */
  predicate DrawnBy(es: seq<CvtRect>, px: int, py: int)
  {
    exists k :: 0 <= k < |es| && Draws(es[k], px, py)
  }

  /** Some entry of es has a tile holding the pixel. */
  predicate TiledBy(es: seq<CvtRect>, px: int, py: int)
  {
    exists k :: 0 <= k < |es| && HasPoint(es[k].rect, px, py)
  }

  /**
   * Folding duplicates never copies less: every pixel an input entry draws
   * is drawn by the output, and the output draws only pixels of input
   * tiles.
   */
  lemma {:induction false} CopyOptimizeCovers(es: seq<CvtRect>, px: int, py: int)
    requires |es| > 0
    ensures DrawnBy(es, px, py) ==> DrawnBy(CopyOptimize(es), px, py)
    ensures DrawnBy(CopyOptimize(es), px, py) ==> TiledBy(es, px, py)
    decreases |es|
  {
    if |es| > 1 {
      var init := es[..|es| - 1];
      var out := CopyOptimize(init);
      var r := CopyOptimize(es);
      var e := es[|es| - 1];
      var last := out[|out| - 1];
      CopyOptimizeCovers(init, px, py);
      if DrawnBy(es, px, py) {
        var k :| 0 <= k < |es| && Draws(es[k], px, py);
        if k < |es| - 1 {
          assert Draws(init[k], px, py);
          var j :| 0 <= j < |out| && Draws(out[j], px, py);
          if e.rect == last.rect {
            if j == |out| - 1 {
              assert Draws(r[j], px, py);
            } else {
              assert r[j] == out[j];
            }
          } else {
            assert r[j] == out[j];
          }
        } else if e.rect == last.rect {
          assert Draws(r[|r| - 1], px, py);
        } else {
          assert r[|r| - 1] == e;
        }
      }
      if DrawnBy(r, px, py) {
        var j :| 0 <= j < |r| && Draws(r[j], px, py);
        if e.rect == last.rect && j == |r| - 1 {
          assert HasPoint(es[|es| - 1].rect, px, py);
        } else if e.rect != last.rect && j == |r| - 1 {
          assert HasPoint(es[|es| - 1].rect, px, py);
        } else {
          assert r[j] == out[j];
          assert DrawnBy(out, px, py);
          var k :| 0 <= k < |init| && HasPoint(init[k].rect, px, py);
          assert es[k] == init[k];
        }
      }
    }
  }
}
