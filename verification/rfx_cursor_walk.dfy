/**
 * rfx_process_message's block loop with the cursor stored in a 32-bit
 * `int`, beside RfxDecode.Walk, whose cursor is unbounded.
 */
module RfxCursorWalk {
  import opened Common
  import opened RfxWire
  import opened RfxParse
  import opened RfxDecode
  import opened RfxCursor

  /** How a walk with the 32-bit cursor ends. */
  datatype WalkEnd = Finished(ctx: Context, msg: Message) | BeforeBuffer | Unfinished

  /**
   * rfx_process_message's loop with the cursor as written, for at most
   * fuel more blocks. The loop runs while the data length less the cursor
   * exceeds six, so a negative cursor keeps it running and the next header
   * lies before the data (BeforeBuffer). A walk still running after fuel
   * blocks is Unfinished.
   */
  function WalkAsWritten(c: Context, m: Message, s: Bytes, pos: int, fuel: nat): (r: WalkEnd)
    ensures r.Finished? ==> r.msg.dstRect == m.dstRect && r.ctx.pixelFormat == c.pixelFormat
    decreases fuel
  {
    if |s| - pos <= 6 then Finished(c, m)
    else if pos < 0 then BeforeBuffer
    else if fuel == 0 then Unfinished
    else
      var h := HeaderAt(s, pos);
      if h.blockLen == 0 then Finished(c, m)
      else
        match Dispatch(h.blockType, c, m, s, BodyAt(h.blockType, pos))
        case None => Finished(c, m)
        case Some(cm) => WalkAsWritten(cm.0, cm.1, s, WrapCursor(pos + h.blockLen), fuel - 1)
  }

  /** Every block end the walk from pos moves to is below 2^31. */
  predicate CursorInRange(c: Context, m: Message, s: Bytes, pos: nat)
    decreases |s| - pos
  {
    if |s| - pos <= 6 then true
    else
      var h := HeaderAt(s, pos);
      if h.blockLen == 0 then true
      else
        match Dispatch(h.blockType, c, m, s, BodyAt(h.blockType, pos))
        case None => true
        case Some(cm) => pos + h.blockLen < 0x8000_0000 && CursorInRange(cm.0, cm.1, s, pos + h.blockLen)
  }

  /**
   * While no block end reaches 2^31, the loop as written finishes within
   * one block per byte, with what the walk with an unbounded cursor gives.
   */
  lemma {:induction false} WalkAsWrittenAgrees(c: Context, m: Message, s: Bytes, pos: nat, fuel: nat)
    requires CursorInRange(c, m, s, pos) && fuel >= |s| - pos
    ensures WalkAsWritten(c, m, s, pos, fuel) == Finished(Walk(c, m, s, pos).0, Walk(c, m, s, pos).1)
    decreases |s| - pos
  {
    if |s| - pos > 6 {
      var h := HeaderAt(s, pos);
      if h.blockLen != 0 {
        match Dispatch(h.blockType, c, m, s, BodyAt(h.blockType, pos))
        case None =>
        case Some(cm) =>
          WalkAsWrittenAgrees(cm.0, cm.1, s, pos + h.blockLen, fuel - 1);
      }
    }
  }

  /**
   * Two blocks of an unknown type: the first ends at 10, and the second's
   * length 0xFFFFFFF6 brings the cursor from 10 to 2^32, stored as 0.
   */
  const LoopingMessage: Bytes := [0, 0, 10, 0, 0, 0, 0, 0, 0, 0, 0, 0, 0xF6, 0xFF, 0xFF, 0xFF, 0]

  /** On LoopingMessage the loop as written never ends, while the walk with an unbounded cursor stops after two blocks. */
  lemma {:induction false} WalkAsWrittenLoops(c: Context, m: Message, fuel: nat)
    ensures WalkAsWritten(c, m, LoopingMessage, 0, fuel) == Unfinished
    ensures Walk(c, m, LoopingMessage, 0) == (c, m)
    decreases fuel
  {
    var s := LoopingMessage;
    assert U16At(s, 0) == 0 && U32At(s, 2) == 10;
    assert U16At(s, 10) == 0 && U32At(s, 12) == 0xFFFF_FFF6;
    assert Dispatch(0, c, m, s, BodyAt(0, 0)) == Some((c, m));
    assert Dispatch(0, c, m, s, BodyAt(0, 10)) == Some((c, m));
    assert WrapCursor(10 + 0xFFFF_FFF6) == 0;
    assert Walk(c, m, s, 10 + 0xFFFF_FFF6) == (c, m);
    assert Walk(c, m, s, 10) == (c, m);
    if fuel >= 2 {
      WalkAsWrittenLoops(c, m, fuel - 2);
      assert WalkAsWritten(c, m, s, 10, fuel - 1) == WalkAsWritten(c, m, s, 0, fuel - 2);
    }
  }

  /** One block of an unknown type whose length 0xFFFFFFF0 stores the cursor as -16. */
  const UnderrunMessage: Bytes := [0, 0, 0xF0, 0xFF, 0xFF, 0xFF, 0]

  /** On UnderrunMessage the loop as written reads its next header before the data; the walk with an unbounded cursor stops. */
  lemma {:induction false} WalkAsWrittenUnderruns(c: Context, m: Message, fuel: nat)
    requires fuel > 0
    ensures WalkAsWritten(c, m, UnderrunMessage, 0, fuel) == BeforeBuffer
    ensures Walk(c, m, UnderrunMessage, 0) == (c, m)
  {
    var s := UnderrunMessage;
    assert U16At(s, 0) == 0 && U32At(s, 2) == 0xFFFF_FFF0;
    assert Dispatch(0, c, m, s, BodyAt(0, 0)) == Some((c, m));
    assert WrapCursor(0xFFFF_FFF0) == -16;
  }
}
