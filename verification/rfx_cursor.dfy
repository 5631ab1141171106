/**
 * The decoder's block cursor as the C code keeps it. `pos` is an `int`
 * and receives `stream_get_pos(s) - 6 + blockLen`, so the block end is
 * taken modulo 2^32 and read as a signed 32-bit value: a block length
 * that carries the sum to 2^31 or beyond sends the cursor back into the
 * data, or before it.
 *
 * RfxDecode.Walk and RfxDecode.TileWalk keep the cursor as an unbounded
 * number, which is the decoder the code evidently intends. RfxCursorWalk
 * and RfxCursorTiles model the message loop and the tile loop as written,
 * with this cursor; each is shown to agree with its walk while no block
 * end reaches 2^31, and inputs where they part are exhibited.
 */
module RfxCursor {
  import opened Common

  /**
   * A block end computed in wide arithmetic and stored into a 32-bit
   * `int`: the result lies in -2^31..2^31-1, has the same 32 low bits as
   * v, and is v itself when v already lies in that range.
   */
  function WrapCursor(v: int): (r: int)
    ensures 0 <= r + 0x8000_0000 < 0x1_0000_0000
    ensures Trunc32(r) == Trunc32(v)
    ensures 0 <= v + 0x8000_0000 < 0x1_0000_0000 ==> r == v
  {
    var w := Trunc32(v);
    if w < 0x8000_0000 then w else w - 0x1_0000_0000
  }
}
