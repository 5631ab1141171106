/**
 * rfx_process_message_tileset's tile loop with the cursor stored in a
 * 32-bit `int`, beside RfxDecode.TileWalk, whose cursor is unbounded.
 */
module RfxCursorTiles {
  import opened Common
  import opened RfxWire
  import opened RfxParse
  import opened RfxDecode
  import opened RfxCursor

  /**
   * rfx_process_message_tileset's tile loop with the cursor as written.
   * Nothing checks the cursor, so a negative one reads before the data:
   * None, like a read past the end.
   */
  function TileWalkAsWritten(s: Bytes, p: int, tiles: seq<Option<TileInfo>>, i: nat): Option<seq<Option<TileInfo>>>
    requires i <= |tiles|
    decreases |tiles| - i
  {
    if i == |tiles| then Some(tiles)
    else
      if p < 0 || p + 6 > |s| then None
      else if U16At(s, p) != CBT_TILE then Some(tiles)
      else
        match ParseTile(s, p + 6)
        case None => None
        case Some(_) => TileWalkAsWritten(s, WrapCursor(NextBlock(s, p)), tiles[i := Some(DecodedTile(s, p))], i + 1)
  }

  /**
   * On data shorter than 2^31 bytes, wherever the tile walk with an
   * unbounded cursor succeeds, the loop as written fills the same slots.
   */
  lemma {:induction false} TileWalkAsWrittenAgrees(s: Bytes, p: nat, tiles: seq<Option<TileInfo>>, i: nat)
    requires i <= |tiles| && |s| < 0x8000_0000 && TileWalk(s, p, tiles, i).Some?
    ensures TileWalkAsWritten(s, p, tiles, i) == TileWalk(s, p, tiles, i)
    decreases |tiles| - i
  {
    if i < |tiles| && U16At(s, p) == CBT_TILE {
      var next := NextBlock(s, p);
      var tiles' := tiles[i := Some(DecodedTile(s, p))];
      if i + 1 < |tiles| {
        assert next + 6 <= |s|;
        TileWalkAsWrittenAgrees(s, next, tiles', i + 1);
      }
    }
  }

  /**
   * Two tile blocks: the first ends at 19, and the second's length
   * 0xFFFFFFED brings the cursor from 19 to 2^32, stored as 0.
   */
  const RereadTiles: Bytes := [0xC3, 0xCA, 19, 0, 0, 0, 0, 0, 0, 0, 0, 0, 0, 0, 0, 0, 0, 0, 0, 0xC3, 0xCA, 0xED, 0xFF, 0xFF, 0xFF, 0, 0, 0, 1, 0, 0, 0, 0, 0, 0, 0, 0, 0]

  /** The two tile blocks of RereadTiles and where each says the next block starts. */
  lemma RereadTilesBlocks()
    ensures |RereadTiles| == 38 && IsTileBlock(RereadTiles, 0) && IsTileBlock(RereadTiles, 19)
    ensures NextBlock(RereadTiles, 0) == 19 && NextBlock(RereadTiles, 19) == 0x1_0000_0000
  {
    var s := RereadTiles;
    assert s[0] == 0xC3 && s[1] == 0xCA && s[2] == 19 && s[3] == 0 && s[4] == 0 && s[5] == 0;
    assert s[19] == 0xC3 && s[20] == 0xCA && s[21] == 0xED && s[22] == 0xFF && s[23] == 0xFF && s[24] == 0xFF;
    assert U16At(s, 0) == CBT_TILE && U32At(s, 2) == 19;
    assert U16At(s, 19) == CBT_TILE && U32At(s, 21) == 0xFFFF_FFED;
  }

  /**
   * With three slots, the tile loop as written fills the third with the
   * first tile again; the tile walk with an unbounded cursor reads past
   * the end and fails.
   */
  lemma {:induction false} TileWalkAsWrittenRereads()
    ensures TileWalkAsWritten(RereadTiles, 0, [None, None, None], 0) ==
      Some([Some(DecodedTile(RereadTiles, 0)), Some(DecodedTile(RereadTiles, 19)), Some(DecodedTile(RereadTiles, 0))])
    ensures TileWalk(RereadTiles, 0, [None, None, None], 0).None?
  {
    RereadTilesBlocks();
    var s := RereadTiles;
    var t0 := Some(DecodedTile(s, 0));
    var t1 := Some(DecodedTile(s, 19));
    assert [None, None, None][0 := t0] == [t0, None, None];
    assert [t0, None, None][1 := t1] == [t0, t1, None];
    assert [t0, t1, None][2 := t0] == [t0, t1, t0];
    assert WrapCursor(19) == 19 && WrapCursor(0x1_0000_0000) == 0;
    calc {
      TileWalkAsWritten(s, 0, [None, None, None], 0);
      TileWalkAsWritten(s, 19, [t0, None, None], 1);
      TileWalkAsWritten(s, 0, [t0, t1, None], 2);
      Some([t0, t1, t0]);
    }
    calc {
      TileWalk(s, 0, [None, None, None], 0);
      TileWalk(s, 19, [t0, None, None], 1);
      TileWalk(s, 0x1_0000_0000, [t0, t1, None], 2);
      None;
    }
  }
}
