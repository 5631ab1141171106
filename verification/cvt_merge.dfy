/**
 * Tile merging of the hardware decoding path (rfx_platform_cvt.c): the
 * horizontal merge done while tiles are read, the horizontal merge of
 * copy entries (rfx_cvt_rdvh_opt_tile_merge), and the in-place vertical
 * merge with its compaction, which both tileset passes share. Merging
 * never changes which pixels the list covers, as long as the tiles are
 * 64x64 and lie within the 16-bit coordinate space.
 */
module CvtMerge {
  import opened Common
  import RfxParse
  import opened CvtGeometry

  /** The 64x64 rect of the tile at grid position (xIdx, yIdx); x*64 and y*64 are stored in 16 bits. */
  function TileRect(xIdx: u16, yIdx: u16): (r: Rect)
    ensures r.width == 64 && r.height == 64
    ensures r.x % 64 == 0 && r.y % 64 == 0
    ensures xIdx < 1024 ==> r.x == 64 * xIdx
    ensures yIdx < 1024 ==> r.y == 64 * yIdx
  {
    RfxParse.RfxRect(Trunc16(xIdx * 64), Trunc16(yIdx * 64), 64, 64)
  }

  /** The rect grown by one tile to the right; the width is a 16-bit field. */
  function Widen(r: Rect): Rect
  {
    r.(width := Trunc16(r.width + 64))
  }

  /** Some rect of rs holds the pixel. */
  predicate Covers(rs: seq<Rect>, px: int, py: int)
  {
    exists k :: 0 <= k < |rs| && HasPoint(rs[k], px, py)
  }

  /** A tile-sized rect, 64x64. */
  predicate TileSized(r: Rect)
  {
    r.width == 64 && r.height == 64
  }

  /** The rect ends inside the 16-bit coordinate space. */
  predicate Fits(r: Rect)
  {
    Right(r) <= 0xFFFF && Bottom(r) <= 0xFFFF
  }

  // -----------------------------------------------------------------------
  // Horizontal merge while reading tiles
  // -----------------------------------------------------------------------

  /**
   * The merge done as each tile is read: a tile in the same row that
   * starts where the last rect so far ends widens that rect by 64 instead
   * of adding an entry.
   */
  function HMerge(tiles: seq<Rect>): (out: seq<Rect>)
    ensures |out| <= |tiles|
    ensures |out| == 0 <==> |tiles| == 0
  {
    if |tiles| == 0 then []
    else
      var out := HMerge(tiles[..|tiles| - 1]);
      var r := tiles[|tiles| - 1];
      if |out| > 0 && r.y == out[|out| - 1].y && r.x == Right(out[|out| - 1]) then
        out[..|out| - 1] + [Widen(out[|out| - 1])]
      else out + [r]
  }

  /** Two tiles side by side become one 128x64 rect. */
  lemma {:induction false} HMergeTwoTiles()
    ensures HMerge([TileRect(0, 0), TileRect(1, 0)]) == [RfxParse.RfxRect(0, 0, 128, 64)]
  {
    var ts := [TileRect(0, 0), TileRect(1, 0)];
    assert ts[..1] == [TileRect(0, 0)];
    assert [TileRect(0, 0)][..0] == [];
    assert HMerge([TileRect(0, 0)]) == [TileRect(0, 0)];
  }

  /** The last rect of a list adds its pixels to those of the rest. */
  lemma {:induction false} CoversSnoc(rs: seq<Rect>, px: int, py: int)
    requires |rs| > 0
    ensures Covers(rs, px, py) <==> Covers(rs[..|rs| - 1], px, py) || HasPoint(rs[|rs| - 1], px, py)
  {
    var init := rs[..|rs| - 1];
    if Covers(rs, px, py) {
      var k :| 0 <= k < |rs| && HasPoint(rs[k], px, py);
      if k < |rs| - 1 {
        assert HasPoint(init[k], px, py);
      }
    }
    if Covers(init, px, py) {
      var k :| 0 <= k < |init| && HasPoint(init[k], px, py);
      assert HasPoint(rs[k], px, py);
    }
  }

  /** Widening the last rect by an adjacent tile adds exactly the tile's pixels. */
  lemma {:induction false} CoversWiden(out: seq<Rect>, r: Rect, px: int, py: int)
    requires |out| > 0
    requires TileSized(r) && Fits(r) && out[|out| - 1].height == 64
    requires r.y == out[|out| - 1].y && r.x == Right(out[|out| - 1])
    ensures var res := out[..|out| - 1] + [Widen(out[|out| - 1])];
      Fits(Widen(out[|out| - 1])) && Widen(out[|out| - 1]).height == 64 &&
      (Covers(res, px, py) <==> Covers(out, px, py) || HasPoint(r, px, py))
  {
    var last := out[|out| - 1];
    var res := out[..|out| - 1] + [Widen(last)];
    assert Widen(last) == last.(width := last.width + 64);
    assert HasPoint(Widen(last), px, py) <==> HasPoint(last, px, py) || HasPoint(r, px, py);
    CoversSnoc(res, px, py);
    CoversSnoc(out, px, py);
    assert res[..|res| - 1] == out[..|out| - 1];
  }

  /** The merged rects are 64 pixels high and fit the 16-bit space. */
  lemma {:induction false} HMergeShape(tiles: seq<Rect>)
    requires forall k :: 0 <= k < |tiles| ==> TileSized(tiles[k]) && Fits(tiles[k])
    ensures forall k :: 0 <= k < |HMerge(tiles)| ==> HMerge(tiles)[k].height == 64 && Fits(HMerge(tiles)[k])
    decreases |tiles|
  {
    if |tiles| > 0 {
      var init := tiles[..|tiles| - 1];
      var out := HMerge(init);
      var r := tiles[|tiles| - 1];
      HMergeShape(init);
      if |out| > 0 && r.y == out[|out| - 1].y && r.x == Right(out[|out| - 1]) {
        CoversWiden(out, r, 0, 0);
      }
    }
  }

  /**
   * Merging keeps the covered pixels: for 64x64 tiles within the 16-bit
   * space, the merged rects cover exactly the pixels the tiles cover.
   */
  lemma {:induction false} HMergeCovers(tiles: seq<Rect>, px: int, py: int)
    requires forall k :: 0 <= k < |tiles| ==> TileSized(tiles[k]) && Fits(tiles[k])
    ensures Covers(HMerge(tiles), px, py) <==> Covers(tiles, px, py)
    decreases |tiles|
  {
    if |tiles| > 0 {
      var init := tiles[..|tiles| - 1];
      var out := HMerge(init);
      var r := tiles[|tiles| - 1];
      HMergeCovers(init, px, py);
      HMergeShape(init);
      CoversSnoc(tiles, px, py);
      if |out| > 0 && r.y == out[|out| - 1].y && r.x == Right(out[|out| - 1]) {
        CoversWiden(out, r, px, py);
      } else {
        CoversSnoc(out + [r], px, py);
        assert (out + [r])[..|out|] == out;
      }
    }
  }

  // -----------------------------------------------------------------------
  // Entries with clip windows
  // -----------------------------------------------------------------------

  /**
   * The pixels an entry stands for: its tile, cut to its clip window when
   * the list is one whose merges respect clips.
   */
  predicate Shows(e: CvtRect, withClip: bool, px: int, py: int)
  {
    HasPoint(e.rect, px, py) && (withClip ==> HasPoint(e.clip, px, py))
  }

  /** Some entry of es shows the pixel. */
  predicate ShownBy(es: seq<CvtRect>, withClip: bool, px: int, py: int)
  {
    exists k :: 0 <= k < |es| && Shows(es[k], withClip, px, py)
  }

  /** Every tile of the list fits the 16-bit space. */
  predicate AllFit(es: seq<CvtRect>)
  {
    forall k :: 0 <= k < |es| ==> Fits(es[k].rect)
  }

  /** Every entry from position j on is 64 pixels high. */
  predicate TallFrom(es: seq<CvtRect>, j: nat)
  {
    forall k :: j <= k < |es| ==> es[k].rect.height == 64
  }

  lemma {:induction false} ShownSnoc(es: seq<CvtRect>, withClip: bool, px: int, py: int)
    requires |es| > 0
    ensures ShownBy(es, withClip, px, py) <==>
      ShownBy(es[..|es| - 1], withClip, px, py) || Shows(es[|es| - 1], withClip, px, py)
  {
    var init := es[..|es| - 1];
    if ShownBy(es, withClip, px, py) {
      var k :| 0 <= k < |es| && Shows(es[k], withClip, px, py);
      if k < |es| - 1 {
        assert Shows(init[k], withClip, px, py);
      }
    }
    if ShownBy(init, withClip, px, py) {
      var k :| 0 <= k < |init| && Shows(init[k], withClip, px, py);
      assert Shows(es[k], withClip, px, py);
    }
  }

  /**
   * rfx_cvt_rdvh_opt_tile_merge, horizontal part: an entry with the same
   * clip window as the entry before it in the input, in the same row and
   * starting where that entry's tile ends, widens the last output entry
   * by 64.
   */
  function HMergeCopies(src: seq<CvtRect>): (out: seq<CvtRect>)
    ensures |out| <= |src|
    ensures |out| == 0 <==> |src| == 0
  {
    if |src| <= 1 then src
    else
      var out := HMergeCopies(src[..|src| - 1]);
      var e := src[|src| - 1];
      var p := src[|src| - 2];
      if e.clip == p.clip && e.rect.y == p.rect.y && e.rect.x == Right(p.rect) then
        out[..|out| - 1] + [out[|out| - 1].(rect := Widen(out[|out| - 1].rect))]
      else out + [e]
  }

  /** Widening the last entry by an adjacent entry with the same clip adds exactly that entry's pixels. */
  lemma {:induction false} ShownWiden(out: seq<CvtRect>, e: CvtRect, withClip: bool, px: int, py: int)
    requires |out| > 0
    requires TileSized(e.rect) && Fits(e.rect) && out[|out| - 1].rect.height == 64
    requires e.rect.y == out[|out| - 1].rect.y && e.rect.x == Right(out[|out| - 1].rect)
    requires e.clip == out[|out| - 1].clip
    ensures var w := out[|out| - 1].(rect := Widen(out[|out| - 1].rect));
      var res := out[..|out| - 1] + [w];
      Fits(w.rect) && w.rect.height == 64 && Right(w.rect) == Right(e.rect) &&
      (ShownBy(res, withClip, px, py) <==> ShownBy(out, withClip, px, py) || Shows(e, withClip, px, py))
  {
    var last := out[|out| - 1];
    var w := last.(rect := Widen(last.rect));
    var res := out[..|out| - 1] + [w];
    assert w.rect == last.rect.(width := last.rect.width + 64);
    assert Shows(w, withClip, px, py) <==> Shows(last, withClip, px, py) || Shows(e, withClip, px, py);
    ShownSnoc(res, withClip, px, py);
    ShownSnoc(out, withClip, px, py);
    assert res[..|res| - 1] == out[..|out| - 1];
  }

  /**
   * For 64x64 inputs that fit the space, the last output entry ends where
   * the last input entry ends, in its row, with its clip; every output
   * entry is 64 high and fits.
   */
  lemma {:induction false} HMergeCopiesShape(src: seq<CvtRect>)
    requires forall k :: 0 <= k < |src| ==> TileSized(src[k].rect) && Fits(src[k].rect)
    ensures var out := HMergeCopies(src);
      AllFit(out) && TallFrom(out, 0) &&
      (|src| > 0 ==> out[|out| - 1].rect.y == src[|src| - 1].rect.y &&
                     Right(out[|out| - 1].rect) == Right(src[|src| - 1].rect) &&
                     out[|out| - 1].clip == src[|src| - 1].clip)
    decreases |src|
  {
    if |src| > 1 {
      var init := src[..|src| - 1];
      var out := HMergeCopies(init);
      var e := src[|src| - 1];
      var p := src[|src| - 2];
      HMergeCopiesShape(init);
      assert init[|init| - 1] == p;
      if e.clip == p.clip && e.rect.y == p.rect.y && e.rect.x == Right(p.rect) {
        ShownWiden(out, e, true, 0, 0);
      }
    }
  }

  /** The horizontal merge of copy entries keeps the pixels they draw. */
  lemma {:induction false} HMergeCopiesCovers(src: seq<CvtRect>, withClip: bool, px: int, py: int)
    requires forall k :: 0 <= k < |src| ==> TileSized(src[k].rect) && Fits(src[k].rect)
    ensures ShownBy(HMergeCopies(src), withClip, px, py) <==> ShownBy(src, withClip, px, py)
    decreases |src|
  {
    if |src| > 1 {
      var init := src[..|src| - 1];
      var out := HMergeCopies(init);
      var e := src[|src| - 1];
      var p := src[|src| - 2];
      HMergeCopiesCovers(init, withClip, px, py);
      HMergeCopiesShape(init);
      assert init[|init| - 1] == p;
      ShownSnoc(src, withClip, px, py);
      if e.clip == p.clip && e.rect.y == p.rect.y && e.rect.x == Right(p.rect) {
        ShownWiden(out, e, withClip, px, py);
      } else {
        ShownSnoc(out + [e], withClip, px, py);
        assert (out + [e])[..|out|] == out;
      }
    }
  }

  // -----------------------------------------------------------------------
  // Vertical merge and compaction
  // -----------------------------------------------------------------------

  /**
   * The entry below continues the one on top: same column and width, it
   * starts where the top one ends, it is still live (non-zero width), and,
   * for copy entries, the clip windows agree.
   */
  predicate Stacks(top: CvtRect, below: CvtRect, withClip: bool)
  {
    (withClip ==> top.clip == below.clip) &&
    top.rect.x == below.rect.x && Bottom(top.rect) == below.rect.y &&
    top.rect.width == below.rect.width && below.rect.width != 0
  }

  /** One tile taller; the height is a 16-bit field. */
  function Grow(e: CvtRect): CvtRect
  {
    e.(rect := e.rect.(height := Trunc16(e.rect.height + 64)))
  }

  /** Marked as merged away: zero width. */
  function Drop(e: CvtRect): CvtRect
  {
    e.(rect := e.rect.(width := 0))
  }

  /**
   * The inner loop for entry j, from entry i on: each later entry that
   * continues entry j (as grown so far) is merged into it.
   */
  function Absorb(es: seq<CvtRect>, j: nat, i: nat, withClip: bool): (r: seq<CvtRect>)
    requires j < i <= |es|
    ensures |r| == |es|
    decreases |es| - i
  {
    if i == |es| then es
    else if Stacks(es[j], es[i], withClip) then Absorb(es[j := Grow(es[j])][i := Drop(es[i])], j, i + 1, withClip)
    else Absorb(es, j, i + 1, withClip)
  }

  /** The outer loop, from entry j on. */
  function VPass(es: seq<CvtRect>, j: nat, withClip: bool): (r: seq<CvtRect>)
    requires j <= |es|
    ensures |r| == |es|
    decreases |es| - j
  {
    if j == |es| then es else VPass(Absorb(es, j, j + 1, withClip), j + 1, withClip)
  }

  /** The compaction pass: entries of zero width are dropped, the rest keep their order. */
  function Compact(es: seq<CvtRect>): (r: seq<CvtRect>)
    ensures |r| <= |es|
    ensures forall k :: 0 <= k < |r| ==> r[k].rect.width != 0
    ensures forall e :: e in r <==> e in es && e.rect.width != 0
  {
    if |es| == 0 then []
    else
      var init := es[..|es| - 1];
      var e := es[|es| - 1];
      assert es == init + [e];
      if e.rect.width != 0 then Compact(init) + [e] else Compact(init)
  }

  /** Compaction works entry by entry, so the surviving entries keep their relative order. */
  lemma {:induction false} CompactSplit(a: seq<CvtRect>, b: seq<CvtRect>)
    ensures Compact(a + b) == Compact(a) + Compact(b)
    decreases |b|
  {
    if |b| == 0 {
      assert a + b == a;
    } else {
      var binit := b[..|b| - 1];
      assert (a + b)[..|a + b| - 1] == a + binit;
      CompactSplit(a, binit);
    }
  }

  /** The vertical merge of a list followed by compaction. */
  function VMerge(es: seq<CvtRect>, withClip: bool): (r: seq<CvtRect>)
    ensures |r| <= |es|
    ensures forall k :: 0 <= k < |r| ==> r[k].rect.width != 0
  {
    Compact(VPass(es, 0, withClip))
  }

  /**
   * One merge of the inner loop shows the same pixels: the grown entry
   * shows its own pixels and those of the entry it absorbed, which shows
   * none afterwards.
   */
  lemma {:induction false} AbsorbStep(es: seq<CvtRect>, j: nat, i: nat, withClip: bool, px: int, py: int)
    requires j < i < |es|
    requires Stacks(es[j], es[i], withClip) && es[i].rect.height == 64 && Fits(es[i].rect)
    ensures var es' := es[j := Grow(es[j])][i := Drop(es[i])];
      Fits(es'[j].rect) && (ShownBy(es', withClip, px, py) <==> ShownBy(es, withClip, px, py))
  {
    var es' := es[j := Grow(es[j])][i := Drop(es[i])];
    assert Grow(es[j]).rect == es[j].rect.(height := es[j].rect.height + 64);
    assert Shows(es'[j], withClip, px, py) <==> Shows(es[j], withClip, px, py) || Shows(es[i], withClip, px, py);
    assert !Shows(es'[i], withClip, px, py);
    if ShownBy(es', withClip, px, py) {
      var k :| 0 <= k < |es'| && Shows(es'[k], withClip, px, py);
      if k == j {
        if Shows(es[j], withClip, px, py) {
          assert ShownBy(es, withClip, px, py);
        } else {
          assert ShownBy(es, withClip, px, py);
        }
      } else if k != i {
        assert es'[k] == es[k];
      }
    }
    if ShownBy(es, withClip, px, py) {
      var k :| 0 <= k < |es| && Shows(es[k], withClip, px, py);
      if k == j || k == i {
        assert Shows(es'[j], withClip, px, py);
      } else {
        assert es'[k] == es[k];
      }
    }
  }

  /** The inner loop keeps the shown pixels, the fit of every tile and the height of later entries. */
  lemma {:induction false} AbsorbCovers(es: seq<CvtRect>, j: nat, i: nat, withClip: bool, px: int, py: int)
    requires j < i <= |es|
    requires AllFit(es) && TallFrom(es, j + 1)
    ensures var r := Absorb(es, j, i, withClip);
      AllFit(r) && TallFrom(r, j + 1) && (ShownBy(r, withClip, px, py) <==> ShownBy(es, withClip, px, py))
    decreases |es| - i
  {
    if i < |es| {
      if Stacks(es[j], es[i], withClip) {
        var es' := es[j := Grow(es[j])][i := Drop(es[i])];
        AbsorbStep(es, j, i, withClip, px, py);
        assert AllFit(es') by {
          forall k | 0 <= k < |es'| ensures Fits(es'[k].rect) {
            if k != j && k != i {
              assert es'[k] == es[k];
            }
          }
        }
        assert TallFrom(es', j + 1) by {
          forall k | j + 1 <= k < |es'| ensures es'[k].rect.height == 64 {
            if k != i {
              assert es'[k] == es[k];
            }
          }
        }
        AbsorbCovers(es', j, i + 1, withClip, px, py);
      } else {
        AbsorbCovers(es, j, i + 1, withClip, px, py);
      }
    }
  }

  lemma {:induction false} VPassCovers(es: seq<CvtRect>, j: nat, withClip: bool, px: int, py: int)
    requires j <= |es|
    requires AllFit(es) && TallFrom(es, j)
    ensures ShownBy(VPass(es, j, withClip), withClip, px, py) <==> ShownBy(es, withClip, px, py)
    decreases |es| - j
  {
    if j < |es| {
      AbsorbCovers(es, j, j + 1, withClip, px, py);
      VPassCovers(Absorb(es, j, j + 1, withClip), j + 1, withClip, px, py);
    }
  }

  /** Entries of zero width show nothing, so compaction keeps the shown pixels. */
  lemma {:induction false} CompactCovers(es: seq<CvtRect>, withClip: bool, px: int, py: int)
    ensures ShownBy(Compact(es), withClip, px, py) <==> ShownBy(es, withClip, px, py)
  {
    var r := Compact(es);
    if ShownBy(es, withClip, px, py) {
      var k :| 0 <= k < |es| && Shows(es[k], withClip, px, py);
      assert es[k] in r;
      var j :| 0 <= j < |r| && r[j] == es[k];
    }
    if ShownBy(r, withClip, px, py) {
      var j :| 0 <= j < |r| && Shows(r[j], withClip, px, py);
      assert r[j] in es;
      var k :| 0 <= k < |es| && es[k] == r[j];
    }
  }

  /**
   * The vertical merge keeps the shown pixels of a list whose tiles are 64
   * high and fit the 16-bit space.
   */
  lemma {:induction false} VMergeCovers(es: seq<CvtRect>, withClip: bool, px: int, py: int)
    requires AllFit(es) && TallFrom(es, 0)
    ensures ShownBy(VMerge(es, withClip), withClip, px, py) <==> ShownBy(es, withClip, px, py)
  {
    VPassCovers(es, 0, withClip, px, py);
    CompactCovers(VPass(es, 0, withClip), withClip, px, py);
  }

  /** rfx_cvt_rdvh_opt_tile_merge: the horizontal merge of copy entries, then the vertical merge. */
  function TileMerge(src: seq<CvtRect>): (out: seq<CvtRect>)
    ensures |out| <= |src|
    ensures forall k :: 0 <= k < |out| ==> out[k].rect.width != 0
  {
    VMerge(HMergeCopies(src), true)
  }

  /** Merging copy entries made of whole tiles keeps the pixels they draw. */
  lemma {:induction false} TileMergeCovers(src: seq<CvtRect>, px: int, py: int)
    requires forall k :: 0 <= k < |src| ==> TileSized(src[k].rect) && Fits(src[k].rect)
    ensures ShownBy(TileMerge(src), true, px, py) <==> ShownBy(src, true, px, py)
  {
    HMergeCopiesShape(src);
    HMergeCopiesCovers(src, true, px, py);
    VMergeCovers(HMergeCopies(src), true, px, py);
  }

  // -----------------------------------------------------------------------
  // The blit tile list
  // -----------------------------------------------------------------------

  /** Plain rects as entries; the clip is unused by a merge that ignores clips. */
  function Lift(rs: seq<Rect>): (es: seq<CvtRect>)
    ensures |es| == |rs|
    ensures forall k :: 0 <= k < |rs| ==> es[k].rect == rs[k]
  {
    seq(|rs|, k requires 0 <= k < |rs| => CvtRect(rs[k], rs[k]))
  }

  /** The tiles of a list of entries. */
  function Rects(es: seq<CvtRect>): (rs: seq<Rect>)
    ensures |rs| == |es|
    ensures forall k :: 0 <= k < |es| ==> rs[k] == es[k].rect
  {
    seq(|es|, k requires 0 <= k < |es| => es[k].rect)
  }

  /**
   * The tile rects both tileset passes hand on for clipping: merged
   * horizontally while read, then vertically, then compacted.
   */
  function BlitRects(tiles: seq<Rect>): (rs: seq<Rect>)
    ensures |rs| <= |tiles|
    ensures forall k :: 0 <= k < |rs| ==> rs[k].width != 0
  {
    Rects(VMerge(Lift(HMerge(tiles)), false))
  }

  /** The blit rects cover exactly the pixels of the tiles read. */
  lemma {:induction false} BlitRectsCover(tiles: seq<Rect>, px: int, py: int)
    requires forall k :: 0 <= k < |tiles| ==> TileSized(tiles[k]) && Fits(tiles[k])
    ensures Covers(BlitRects(tiles), px, py) <==> Covers(tiles, px, py)
  {
    var h := HMerge(tiles);
    var l := Lift(h);
    var v := VMerge(l, false);
    HMergeShape(tiles);
    HMergeCovers(tiles, px, py);
    VMergeCovers(l, false, px, py);
    if Covers(h, px, py) {
      var k :| 0 <= k < |h| && HasPoint(h[k], px, py);
      assert Shows(l[k], false, px, py);
    }
    if ShownBy(l, false, px, py) {
      var k :| 0 <= k < |l| && Shows(l[k], false, px, py);
      assert HasPoint(h[k], px, py);
    }
    if ShownBy(v, false, px, py) {
      var k :| 0 <= k < |v| && Shows(v[k], false, px, py);
      assert HasPoint(BlitRects(tiles)[k], px, py);
    }
    if Covers(BlitRects(tiles), px, py) {
      var k :| 0 <= k < |v| && HasPoint(BlitRects(tiles)[k], px, py);
      assert Shows(v[k], false, px, py);
    }
  }
}
