/**
 * The RemoteFX message decoder loop: it walks the blocks of a message,
 * dispatches each on its type to a handler that updates the decoder
 * context or the message being built, and resynchronises the cursor to
 * the start of the block plus its declared length.
 *
 * A read past the end of the data is a failed handler here: the walk
 * stops and keeps what it had before that block.
 */
module RfxDecode {
  import opened Common
  import opened RfxWire
  import opened RfxParse

  /** The decoder context (RFX_CONTEXT) as the message handlers see it. */
  datatype Context = Context(
    flags: u16, width: u16, height: u16,
    channels: seq<Channel>,
    mode: RlgrMode,
    version: u32, codecId: u8, codecVersion: u16,
    pixelFormat: PixelFormat, bitsPerPixel: u8,
    numQuants: u8, quants: seq<nat>)

  /** A freshly allocated, zeroed context with the default pixel format. */
  function NewContext(): (c: Context)
    ensures c.pixelFormat == B8G8R8A8 && c.bitsPerPixel == 32
    ensures c.channels == [] && c.quants == [] && c.numQuants == 0 && c.mode == RLGR1
  {
    SetPixelFormat(Context(0, 0, 0, [], RLGR1, 0, 0, 0, OtherFormat(0), 0, 0, []), B8G8R8A8)
  }

  function SetPixelFormat(c: Context, f: PixelFormat): (r: Context)
    ensures r.pixelFormat == f && r.bitsPerPixel == BitsPerPixel(f)
    ensures r.(pixelFormat := c.pixelFormat, bitsPerPixel := c.bitsPerPixel) == c
  {
    c.(pixelFormat := f, bitsPerPixel := BitsPerPixel(f))
  }

  /** The destination rectangle a caller attaches to a message. */
  datatype Rectangle16 = Rectangle16(left: u16, top: u16, right: u16, bottom: u16)

  /** Where a decoded tile goes, and the tile fields its pixel data was decoded from. */
  datatype TileInfo = TileInfo(x: u16, y: u16, body: TileBody, dataAt: nat)

  /**
   * The message being built (RFX_MESSAGE). A tile slot the message's
   * tileset did not fill is None.
   */
  datatype Message = Message(rects: seq<RfxRect>, numTiles: u16, tiles: seq<Option<TileInfo>>, dstRect: Rectangle16)

  function NewMessage(dst: Option<Rectangle16>): (m: Message)
    ensures m.rects == [] && m.numTiles == 0 && m.tiles == []
  {
    Message([], 0, [], match dst case Some(d) => d case None => Rectangle16(0, 0, 0, 0))
  }

  // -----------------------------------------------------------------------
  // Handlers
  // -----------------------------------------------------------------------

  /**
   * Sync: the wire version is stored before the magic and the version are
   * checked, and the checks only log, so it is stored whatever it is.
   */
  function ProcessSync(c: Context, s: Bytes, p: nat): (r: Option<Context>)
    ensures r.Some? <==> p + 6 <= |s|
    ensures r.Some? ==> r.value.version == U16At(s, p + 4) && r.value.(version := c.version) == c
  {
    match ParseSync(s, p)
    case None => None
    case Some(rd) => Some(c.(version := rd.value.version as u32))
  }

  /**
   * Codec versions, as written: the handler goes through the parser's
   * one-byte version read, so only the low byte of the version is stored
   * and three bytes suffice. A count other than one only logs.
   */
  function ProcessCodecVersions(c: Context, s: Bytes, p: nat): (r: Option<Context>)
    ensures r.Some? <==> p + 3 <= |s|
    ensures r.Some? ==> r.value.codecId == s[p + 1] && r.value.codecVersion == s[p + 2] as u16
    ensures r.Some? ==> r.value.(codecId := c.codecId, codecVersion := c.codecVersion) == c
  {
    match ParseCodecVersionsAsWritten(s, p)
    case None => None
    case Some(rd) => Some(c.(codecId := rd.value.codecId, codecVersion := rd.value.version))
  }

  /** Codec versions with the version read as the two-byte field it is. */
  function ProcessCodecVersionsCorrected(c: Context, s: Bytes, p: nat): (r: Option<Context>)
    ensures r.Some? <==> p + 4 <= |s|
    ensures r.Some? ==> r.value.codecId == s[p + 1] && r.value.codecVersion == U16At(s, p + 2)
    ensures r.Some? ==> r.value.(codecId := c.codecId, codecVersion := c.codecVersion) == c
  {
    match ParseCodecVersions(s, p)
    case None => None
    case Some(rd) => Some(c.(codecId := rd.value.codecId, codecVersion := rd.value.version))
  }

  /**
   * Channels: with at least one channel the context takes the first
   * channel's size; the other channels are kept but not used.
   */
  function ProcessChannels(c: Context, s: Bytes, p: nat): (r: Option<Context>)
    ensures r.Some? ==> p < |s|
    ensures r.Some? && s[p] > 0 ==> p + 6 <= |s| && r.value.width == U16At(s, p + 2) && r.value.height == U16At(s, p + 4)
    ensures r.Some? && |r.value.channels| > 0 ==>
      r.value.width == r.value.channels[0].width && r.value.height == r.value.channels[0].height
    ensures r.Some? && |r.value.channels| == 0 ==> r.value == c
    ensures r.Some? ==> r.value.(channels := c.channels, width := c.width, height := c.height) == c
  {
    match ParseChannels(s, p, c.channels)
    case None => None
    case Some(rd) =>
      var chs := rd.value;
      if |chs| < 1 then Some(c.(channels := chs))
      else Some(c.(channels := chs, width := chs[0].width, height := chs[0].height))
  }

  /** The low three bits of the context properties (`properties & 0x0007`): the codec mode flags. */
  function PropertiesFlags(props: u16): (f: u16)
    ensures f < 8
  {
    props % 8
  }

  /** Bits 9..12 of the context properties (`(properties & 0x1E00) >> 9`): the entropy algorithm. */
  function PropertiesEntropy(props: u16): (e: u16)
    ensures e < 16
  {
    (props / 0x200) % 16
  }

  /** Context: flags from the properties' low bits; the mode follows a known entropy id, else stays. */
  function ProcessContext(c: Context, s: Bytes, p: nat): (r: Option<Context>)
    ensures r.Some? <==> p + 5 <= |s|
    ensures r.Some? ==> r.value.(flags := c.flags, mode := c.mode) == c
    ensures r.Some? ==> r.value.flags == U16At(s, p + 3) % 8
    ensures r.Some? ==> var e := (U16At(s, p + 3) / 0x200) % 16;
      (e == 1 ==> r.value.mode == RLGR1) && (e == 4 ==> r.value.mode == RLGR3)
      && (e != 1 && e != 4 ==> r.value.mode == c.mode)
  {
    match ParseContext(s, p)
    case None => None
    case Some(rd) =>
      var props := rd.value.properties;
      var e := PropertiesEntropy(props);
      var mode := if e == CLW_ENTROPY_RLGR1 then RLGR1 else if e == CLW_ENTROPY_RLGR3 then RLGR3 else c.mode;
      Some(c.(flags := PropertiesFlags(props), mode := mode))
  }

  /** Frame begin: the fields are read and only logged. */
  function ProcessFrameBegin(c: Context, s: Bytes, p: nat): (r: Option<Context>)
    ensures r.Some? <==> p + 6 <= |s|
    ensures r.Some? ==> r.value == c
  {
    match ParseFrameBegin(s, p)
    case None => None
    case Some(_) => Some(c)
  }

  /** Region: the message takes the parsed rects (a zero count keeps the previous ones). */
  function ProcessRegion(m: Message, s: Bytes, p: nat): (r: Option<Message>)
    ensures r.Some? ==> r.value.(rects := m.rects) == m && p + 3 <= |s|
    ensures r.Some? && U16At(s, p + 1) == 0 ==> r.value == m
    ensures r.Some? && U16At(s, p + 1) > 0 ==>
      (|r.value.rects| == U16At(s, p + 1) && p + 3 + 8 * |r.value.rects| <= |s|
       && forall k :: 0 <= k < |r.value.rects| ==> r.value.rects[k] == RectAt(s, p + 3 + 8 * k))
  {
    match ParseRegion(s, p, m.rects)
    case None => None
    case Some(rd) => Some(m.(rects := rd.value))
  }

  /** A tile's placement: the tile index times 64, stored in a 16-bit field. */
  function TileOrigin(idx: u16): u16
  {
    Trunc16(idx as int * 64)
  }

  /** A filled tile slot sits at 64 times its tile indices, as a 16-bit coordinate. */
  predicate Placed(t: Option<TileInfo>)
  {
    t.Some? ==>
      (t.value.x as int == (64 * t.value.body.xIdx as int) % 0x1_0000
       && t.value.y as int == (64 * t.value.body.yIdx as int) % 0x1_0000)
  }

  /** A CBT_TILE block at q whose tile fields can be read. */
  predicate IsTileBlock(s: Bytes, q: nat)
  {
    q + 6 <= |s| && U16At(s, q) == CBT_TILE && ParseTile(s, q + 6).Some?
  }

  /** Where the block after the one at q starts: q plus its declared length. */
  function NextBlock(s: Bytes, q: nat): nat
    requires q + 6 <= |s|
  {
    q + U32At(s, q + 2)
  }

  /** The slot filled from the tile block at q: its placement, its fields and where its data starts. */
  function DecodedTile(s: Bytes, q: nat): (t: TileInfo)
    requires IsTileBlock(s, q)
    ensures t.x == TileOrigin(t.body.xIdx) && t.y == TileOrigin(t.body.yIdx)
    ensures ParseTile(s, q + 6) == Some(Read(t.body, t.dataAt)) && t.dataAt == q + 19
  {
    var rd := ParseTile(s, q + 6).value;
    TileInfo(TileOrigin(rd.value.xIdx), TileOrigin(rd.value.yIdx), rd.value, rd.next)
  }

  /**
   * The tiles of a tileset, from slot i on: each has a six-byte block
   * header; the walk stops at the first block that is not a CBT_TILE, and
   * moves to each tile's declared end after decoding it.
   */
  function ProcessTiles(s: Bytes, p: nat, tiles: seq<Option<TileInfo>>, i: nat): (r: Option<seq<Option<TileInfo>>>)
    requires i <= |tiles|
    ensures r.Some? ==> |r.value| == |tiles| && r.value[..i] == tiles[..i]
    ensures r.Some? && (forall j :: 0 <= j < |tiles| ==> Placed(tiles[j])) ==>
      forall j :: 0 <= j < |tiles| ==> Placed(r.value[j])
    ensures r.Some? ==> forall j, k :: i <= j < k < |tiles| && r.value[k] != tiles[k] ==> r.value[j].Some?
  {
    TileWalkShape(s, p, tiles, i);
    TileWalk(s, p, tiles, i)
  }

  /** The tile walk itself. */
  function TileWalk(s: Bytes, p: nat, tiles: seq<Option<TileInfo>>, i: nat): Option<seq<Option<TileInfo>>>
    requires i <= |tiles|
    decreases |tiles| - i
  {
    if i == |tiles| then Some(tiles)
    else
      if p + 6 > |s| then None
      else if U16At(s, p) != CBT_TILE then Some(tiles)
      else
        match ParseTile(s, p + 6)
        case None => None
        case Some(_) => TileWalk(s, NextBlock(s, p), tiles[i := Some(DecodedTile(s, p))], i + 1)
  }

  /** The walk keeps the slots before i and the slot count, places every tile it fills, and fills slots in order. */
  lemma {:induction false} TileWalkShape(s: Bytes, p: nat, tiles: seq<Option<TileInfo>>, i: nat)
    requires i <= |tiles|
    ensures var r := TileWalk(s, p, tiles, i);
      r.Some? ==> |r.value| == |tiles| && r.value[..i] == tiles[..i]
    ensures var r := TileWalk(s, p, tiles, i);
      r.Some? && (forall j :: 0 <= j < |tiles| ==> Placed(tiles[j])) ==>
      forall j :: 0 <= j < |tiles| ==> Placed(r.value[j])
    ensures var r := TileWalk(s, p, tiles, i);
      r.Some? ==> forall j, k :: i <= j < k < |tiles| && r.value[k] != tiles[k] ==> r.value[j].Some?
    decreases |tiles| - i
  {
    if i < |tiles| && p + 6 <= |s| && U16At(s, p) == CBT_TILE && ParseTile(s, p + 6).Some? {
      var t1 := tiles[i := Some(DecodedTile(s, p))];
      TileWalkShape(s, NextBlock(s, p), t1, i + 1);
      var r := TileWalk(s, NextBlock(s, p), t1, i + 1);
      if r.Some? {
        assert r.value[..i] == t1[..i];
      }
    }
  }

  /**
   * A run of tile blocks: the first starts at p, each is a CBT_TILE block
   * whose fields can be read, and each next one starts at the previous
   * start plus its declared length, whatever the tile itself took up.
   */
  predicate TileChain(s: Bytes, p: nat, starts: seq<nat>)
  {
    && (|starts| > 0 ==> starts[0] == p)
    && TileBlocks(s, starts)
    && (forall k :: 0 <= k < |starts| - 1 ==> starts[k + 1] == NextBlock(s, starts[k]))
  }

  predicate TileBlocks(s: Bytes, starts: seq<nat>)
  {
    forall k :: 0 <= k < |starts| ==> IsTileBlock(s, starts[k])
  }

  /** Where the block after a run starts. */
  function ChainEnd(s: Bytes, p: nat, starts: seq<nat>): nat
    requires TileChain(s, p, starts)
  {
    if |starts| == 0 then p else NextBlock(s, starts[|starts| - 1])
  }

  /** The slots with slots i, i + 1, ... filled from the run's blocks in order. */
  function Filled(s: Bytes, tiles: seq<Option<TileInfo>>, i: nat, starts: seq<nat>): (r: seq<Option<TileInfo>>)
    requires TileBlocks(s, starts) && i + |starts| <= |tiles|
    ensures |r| == |tiles|
    decreases |starts|
  {
    if |starts| == 0 then tiles
    else
      TailBlocks(s, starts);
      Filled(s, tiles[i := Some(DecodedTile(s, starts[0]))], i + 1, starts[1..])
  }

  /** A run of tile blocks without its first block. */
  lemma TailBlocks(s: Bytes, starts: seq<nat>)
    requires TileBlocks(s, starts) && |starts| > 0
    ensures TileBlocks(s, starts[1..])
  {
    var rest := starts[1..];
    forall k | 0 <= k < |rest| ensures IsTileBlock(s, rest[k]) {
      assert rest[k] == starts[k + 1];
    }
  }

  /** Slot j of the filled slots: the run's block j - i when j is in the run, else the slot as it was. */
  lemma {:induction false} FilledAt(s: Bytes, tiles: seq<Option<TileInfo>>, i: nat, starts: seq<nat>, j: nat)
    requires TileBlocks(s, starts) && i + |starts| <= |tiles| && j < |tiles|
    ensures i <= j < i + |starts| ==> Filled(s, tiles, i, starts)[j] == Some(DecodedTile(s, starts[j - i]))
    ensures !(i <= j < i + |starts|) ==> Filled(s, tiles, i, starts)[j] == tiles[j]
    decreases |starts|
  {
    if |starts| > 0 {
      var rest := starts[1..];
      TailBlocks(s, starts);
      FilledAt(s, tiles[i := Some(DecodedTile(s, starts[0]))], i + 1, rest, j);
      if i + 1 <= j < i + |starts| {
        assert rest[j - (i + 1)] == starts[j - i];
      }
    }
  }

  /** The tile walk over a run of tile blocks fills one slot per block, in order, and carries on at the run's end. */
  lemma {:induction false} ProcessTilesFollowsChain(s: Bytes, p: nat, tiles: seq<Option<TileInfo>>, i: nat, starts: seq<nat>)
    requires TileChain(s, p, starts) && i + |starts| <= |tiles|
    ensures TileWalk(s, p, tiles, i) ==
      TileWalk(s, ChainEnd(s, p, starts), Filled(s, tiles, i, starts), i + |starts|)
    decreases |starts|
  {
    if |starts| > 0 {
      assert IsTileBlock(s, p) by { assert IsTileBlock(s, starts[0]); }
      ProcessTilesStep(s, p, tiles, i);
      ChainTail(s, p, starts);
      ProcessTilesFollowsChain(s, NextBlock(s, p), tiles[i := Some(DecodedTile(s, p))], i + 1, starts[1..]);
    }
  }

  /** A tile block at the cursor fills the current slot, and the walk goes on at the block's declared end. */
  lemma {:induction false} ProcessTilesStep(s: Bytes, p: nat, tiles: seq<Option<TileInfo>>, i: nat)
    requires IsTileBlock(s, p) && i < |tiles|
    ensures TileWalk(s, p, tiles, i) == TileWalk(s, NextBlock(s, p), tiles[i := Some(DecodedTile(s, p))], i + 1)
  {
  }

  /** A run without its first block is a run from the next block, ending where the run ends. */
  lemma {:induction false} ChainTail(s: Bytes, p: nat, starts: seq<nat>)
    requires TileChain(s, p, starts) && |starts| > 0
    ensures TileChain(s, NextBlock(s, p), starts[1..])
    ensures ChainEnd(s, NextBlock(s, p), starts[1..]) == ChainEnd(s, p, starts)
  {
    var rest := starts[1..];
    assert TileBlocks(s, rest) by {
      forall k | 0 <= k < |rest| ensures IsTileBlock(s, rest[k]) {
        assert rest[k] == starts[k + 1];
      }
    }
    forall k | 0 <= k < |rest| - 1 ensures rest[k + 1] == NextBlock(s, rest[k]) {
      assert rest[k] == starts[k + 1] && rest[k + 1] == starts[k + 2];
    }
  }

  /**
   * Whatever the walk leaves in the slots, the run's tiles are in slots
   * i, i + 1, ...; and a run that fills the last slot, or that is
   * followed by a block that is not a tile, is exactly what it leaves.
   */
  lemma {:induction false} ProcessTilesReadsChain(s: Bytes, p: nat, tiles: seq<Option<TileInfo>>, i: nat, starts: seq<nat>)
    requires TileChain(s, p, starts) && i + |starts| <= |tiles|
    ensures var r := ProcessTiles(s, p, tiles, i);
      r.Some? ==> forall k :: 0 <= k < |starts| ==> r.value[i + k] == Some(DecodedTile(s, starts[k]))
    ensures var q := ChainEnd(s, p, starts);
      i + |starts| == |tiles| || (q + 6 <= |s| && U16At(s, q) != CBT_TILE) ==>
      ProcessTiles(s, p, tiles, i) == Some(Filled(s, tiles, i, starts))
    ensures var q := ChainEnd(s, p, starts);
      i + |starts| == |tiles| || (q + 6 <= |s| && U16At(s, q) != CBT_TILE) ==>
      var r := ProcessTiles(s, p, tiles, i);
      r.Some? && forall j :: 0 <= j < |tiles| && !(i <= j < i + |starts|) ==> r.value[j] == tiles[j]
  {
    ProcessTilesFollowsChain(s, p, tiles, i, starts);
    var f := Filled(s, tiles, i, starts);
    var q := ChainEnd(s, p, starts);
    TileWalkShape(s, q, f, i + |starts|);
    var r := ProcessTiles(s, p, tiles, i);
    assert r == TileWalk(s, q, f, i + |starts|);
    if r.Some? {
      assert r.value[..i + |starts|] == f[..i + |starts|];
      forall k | 0 <= k < |starts| ensures r.value[i + k] == Some(DecodedTile(s, starts[k])) {
        assert r.value[i + k] == r.value[..i + |starts|][i + k];
        FilledAt(s, tiles, i, starts, i + k);
      }
    }
    if i + |starts| == |tiles| || (q + 6 <= |s| && U16At(s, q) != CBT_TILE) {
      forall j | 0 <= j < |tiles| && !(i <= j < i + |starts|) ensures r.value[j] == tiles[j] {
        FilledAt(s, tiles, i, starts, j);
      }
    }
  }

  /** n tile slots, none of them filled. */
  function EmptySlots(n: nat): (r: seq<Option<TileInfo>>)
    ensures |r| == n && forall k :: 0 <= k < n ==> r[k].None?
  {
    if n == 0 then [] else EmptySlots(n - 1) + [None]
  }

  /**
   * Tileset: the quant table and the counts come from the tileset body;
   * the message gets one slot per tile, filled by the tile walk from the
   * end of the quant values.
   */
  function ProcessTileset(c: Context, m: Message, s: Bytes, p: nat): (r: Option<(Context, Message)>)
    ensures r.Some? ==>
      r.value.0.(numQuants := c.numQuants, quants := c.quants) == c &&
      r.value.1.(numTiles := m.numTiles, tiles := m.tiles) == m &&
      |r.value.1.tiles| == r.value.1.numTiles
    ensures var rd := ParseTileset(s, p, Tileset(c.numQuants, m.numTiles, c.quants));
      r.Some? <==>
        (rd.Some? && ProcessTiles(s, rd.value.next, EmptySlots(rd.value.value.numTiles as nat), 0).Some?)
    ensures var rd := ParseTileset(s, p, Tileset(c.numQuants, m.numTiles, c.quants));
      r.Some? ==>
        r.value.0.numQuants == rd.value.value.numQuants && r.value.0.quants == rd.value.value.quants &&
        r.value.1.numTiles == rd.value.value.numTiles &&
        Some(r.value.1.tiles) == ProcessTiles(s, rd.value.next, EmptySlots(rd.value.value.numTiles as nat), 0)
  {
    match ParseTileset(s, p, Tileset(c.numQuants, m.numTiles, c.quants))
    case None => None
    case Some(rd) =>
      var ts := rd.value;
      var c' := c.(numQuants := ts.numQuants, quants := ts.quants);
      var slots := EmptySlots(ts.numTiles as nat);
      match ProcessTiles(s, rd.next, slots, 0)
      case None => None
      case Some(tiles) => Some((c', m.(numTiles := ts.numTiles, tiles := tiles)))
  }

  /**
   * A tileset whose tiles are a run of tile blocks from the end of its
   * quant values, either one per announced tile or followed by a block
   * that is not a tile: the message holds the run's tiles in order and
   * empty slots after them.
   */
  lemma {:induction false} TilesetReadsChain(c: Context, m: Message, s: Bytes, p: nat, starts: seq<nat>)
    requires var rd := ParseTileset(s, p, Tileset(c.numQuants, m.numTiles, c.quants));
      rd.Some? && TileChain(s, rd.value.next, starts) && |starts| <= rd.value.value.numTiles as nat
    requires var rd := ParseTileset(s, p, Tileset(c.numQuants, m.numTiles, c.quants));
      var q := ChainEnd(s, rd.value.next, starts);
      |starts| == rd.value.value.numTiles as nat || (q + 6 <= |s| && U16At(s, q) != CBT_TILE)
    ensures var rd := ParseTileset(s, p, Tileset(c.numQuants, m.numTiles, c.quants));
      var r := ProcessTileset(c, m, s, p);
      r.Some? && r.value.1.numTiles == rd.value.value.numTiles &&
      (forall k :: 0 <= k < |starts| ==> r.value.1.tiles[k] == Some(DecodedTile(s, starts[k]))) &&
      (forall j :: |starts| <= j < |r.value.1.tiles| ==> r.value.1.tiles[j].None?)
  {
    var rd := ParseTileset(s, p, Tileset(c.numQuants, m.numTiles, c.quants)).value;
    var slots := EmptySlots(rd.value.numTiles as nat);
    ProcessTilesReadsChain(s, rd.next, slots, 0, starts);
    var r := ProcessTileset(c, m, s, p);
    assert Some(r.value.1.tiles) == Some(Filled(s, slots, 0, starts));
    forall j | |starts| <= j < |r.value.1.tiles| ensures r.value.1.tiles[j].None? {
      FilledAt(s, slots, 0, starts, j);
    }
  }

  /** A block type the walk dispatches on. */
  predicate KnownBlock(t: nat)
  {
    WBT_SYNC as nat <= t <= WBT_EXTENSION as nat
  }

  /** Block types whose header carries the two-byte codec channel. */
  predicate HasCodecChannel(t: nat)
  {
    WBT_CONTEXT as nat <= t <= WBT_EXTENSION as nat
  }

  /** The handler for block type t, applied to a body starting at p. */
  function Dispatch(t: nat, c: Context, m: Message, s: Bytes, p: nat): (r: Option<(Context, Message)>)
    ensures !KnownBlock(t) ==> r == Some((c, m))
    ensures t == WBT_FRAME_END as nat ==> r == Some((c, m))
    ensures r.Some? && t != WBT_REGION as nat && t != WBT_EXTENSION as nat ==> r.value.1 == m
    ensures r.Some? && t in {WBT_REGION as nat, WBT_FRAME_BEGIN as nat} ==> r.value.0 == c
  {
    if t == WBT_SYNC as nat then
      match ProcessSync(c, s, p) case None => None case Some(c') => Some((c', m))
    else if t == WBT_CODEC_VERSIONS as nat then
      match ProcessCodecVersions(c, s, p) case None => None case Some(c') => Some((c', m))
    else if t == WBT_CHANNELS as nat then
      match ProcessChannels(c, s, p) case None => None case Some(c') => Some((c', m))
    else if t == WBT_CONTEXT as nat then
      match ProcessContext(c, s, p) case None => None case Some(c') => Some((c', m))
    else if t == WBT_FRAME_BEGIN as nat then
      match ProcessFrameBegin(c, s, p) case None => None case Some(c') => Some((c', m))
    else if t == WBT_FRAME_END as nat then Some((c, m))
    else if t == WBT_REGION as nat then
      match ProcessRegion(m, s, p) case None => None case Some(m') => Some((c, m'))
    else if t == WBT_EXTENSION as nat then ProcessTileset(c, m, s, p)
    else Some((c, m))
  }

  // -----------------------------------------------------------------------
  // The block walk
  // -----------------------------------------------------------------------

  /** The six-byte block header at pos: the type and the declared length. */
  datatype BlockHeader = BlockHeader(blockType: nat, blockLen: nat)

  function HeaderAt(s: Bytes, pos: nat): (h: BlockHeader)
    requires pos + 6 <= |s|
    ensures h.blockType == U16At(s, pos) && h.blockLen == U32At(s, pos + 2)
  {
    BlockHeader(U16At(s, pos), U32At(s, pos + 2))
  }

  /** Where the handler of a block starting at pos reads its body. */
  function BodyAt(t: nat, pos: nat): nat
  {
    if HasCodecChannel(t) then pos + 8 else pos + 6
  }

  /**
   * The walk from pos: it runs while more than six bytes remain, stops at
   * a zero block length or a failed handler, and otherwise continues at
   * the block start plus its declared length.
   */
  function Walk(c: Context, m: Message, s: Bytes, pos: nat): (r: (Context, Message))
    ensures r.1.dstRect == m.dstRect
    ensures r.0.pixelFormat == c.pixelFormat && r.0.bitsPerPixel == c.bitsPerPixel
    ensures |m.tiles| == m.numTiles as int ==> |r.1.tiles| == r.1.numTiles as int
    decreases |s| - pos
  {
    if |s| - pos <= 6 then (c, m)
    else
      var h := HeaderAt(s, pos);
      if h.blockLen == 0 then (c, m)
      else
        match Dispatch(h.blockType, c, m, s, BodyAt(h.blockType, pos))
        case None => (c, m)
        case Some(cm) => Walk(cm.0, cm.1, s, pos + h.blockLen)
  }

  /** rfx_process_message: a new message, built by walking the data from its start. */
  function ProcessMessage(c: Context, data: Bytes, dst: Option<Rectangle16>): (r: (Context, Message))
    ensures dst.Some? ==> r.1.dstRect == dst.value
    ensures r.0.pixelFormat == c.pixelFormat && r.0.bitsPerPixel == c.bitsPerPixel
    ensures |r.1.tiles| == r.1.numTiles as int
  {
    Walk(c, NewMessage(dst), data, 0)
  }

  /** Six bytes or fewer left, or a zero block length, end the walk with nothing changed. */
  lemma {:induction false} WalkStops(c: Context, m: Message, s: Bytes, pos: nat)
    requires |s| - pos <= 6 || U32At(s, pos + 2) == 0
    ensures Walk(c, m, s, pos) == (c, m)
  {
  }

  /** A block of a type the walk does not know changes nothing but the cursor. */
  lemma {:induction false} WalkSkipsUnknown(c: Context, m: Message, s: Bytes, pos: nat)
    requires |s| - pos > 6 && U32At(s, pos + 2) > 0 && !KnownBlock(U16At(s, pos))
    ensures Walk(c, m, s, pos) == Walk(c, m, s, pos + U32At(s, pos + 2))
  {
  }

  // -----------------------------------------------------------------------
  // What the walk reads
  // -----------------------------------------------------------------------

  /**
   * Where the handler of a block of type t, other than a tileset, stops
   * reading a body that starts at p: a fixed size for the fixed bodies,
   * the count plus the listed entries for channels and regions, nothing
   * for a frame end or an unknown type.
   */
  function SpanEnd(t: nat, s: Bytes, p: nat): (e: nat)
    ensures e >= p
  {
    if t == WBT_SYNC as nat then p + 6
    else if t == WBT_CODEC_VERSIONS as nat then p + 3
    else if t == WBT_CHANNELS as nat then
      (if p < |s| && s[p] > 0 then p + 1 + 5 * s[p] as nat else p + 1)
    else if t == WBT_CONTEXT as nat then p + 5
    else if t == WBT_FRAME_BEGIN as nat then p + 6
    else if t == WBT_REGION as nat then
      (if p + 3 <= |s| && U16At(s, p + 1) > 0 then p + 3 + 8 * U16At(s, p + 1) as nat else p + 3)
    else p
  }

  /** Every handler but the tileset's depends only on the bytes from the body start to its span end. */
  lemma {:induction false} DispatchReadsSpan(t: nat, c: Context, m: Message, s: Bytes, s': Bytes, p: nat)
    requires t != WBT_EXTENSION as nat && Agree(s, s', p, SpanEnd(t, s, p))
    ensures Dispatch(t, c, m, s, p) == Dispatch(t, c, m, s', p)
  {
    if t == WBT_CHANNELS as nat && p < |s| && s[p] > 0 {
      ChannelListReads(s, s', p + 1, s[p] as nat);
    } else if t == WBT_REGION as nat && p + 3 <= |s| && U16At(s, p + 1) > 0 {
      assert U16At(s, p + 1) == U16At(s', p + 1);
      RectListReads(s, s', p + 3, U16At(s, p + 1) as nat);
    }
  }

  /** The tile walk from p depends only on the bytes from p on. */
  lemma {:induction false} TileWalkReads(s: Bytes, s': Bytes, p: nat, tiles: seq<Option<TileInfo>>, i: nat)
    requires i <= |tiles| && Agree(s, s', p, |s|)
    ensures TileWalk(s, p, tiles, i) == TileWalk(s', p, tiles, i)
    decreases |tiles| - i
  {
    if i < |tiles| && p + 6 <= |s| && U16At(s, p) == CBT_TILE && ParseTile(s, p + 6).Some? {
      assert U16At(s', p) == CBT_TILE && NextBlock(s, p) == NextBlock(s', p);
      assert ParseTile(s, p + 6) == ParseTile(s', p + 6);
      TileWalkReads(s, s', NextBlock(s, p), tiles[i := Some(DecodedTile(s, p))], i + 1);
    }
  }

  /** Every handler depends only on the bytes from its body start on. */
  lemma {:induction false} DispatchReads(t: nat, c: Context, m: Message, s: Bytes, s': Bytes, p: nat)
    requires Agree(s, s', p, |s|)
    ensures Dispatch(t, c, m, s, p) == Dispatch(t, c, m, s', p)
  {
    if t == WBT_EXTENSION as nat {
      var prev := Tileset(c.numQuants, m.numTiles, c.quants);
      TilesetReads(s, s', p, prev);
      var rd := ParseTileset(s, p, prev);
      if rd.Some? {
        TileWalkReads(s, s', rd.value.next, EmptySlots(rd.value.value.numTiles as nat), 0);
      }
    } else {
      DispatchReadsSpan(t, c, m, s, s', p);
    }
  }

  /** The walk from pos depends only on the bytes from pos on: what comes before is never read. */
  lemma {:induction false} WalkReads(c: Context, m: Message, s: Bytes, s': Bytes, pos: nat)
    requires Agree(s, s', pos, |s|)
    ensures Walk(c, m, s, pos) == Walk(c, m, s', pos)
    decreases |s| - pos, 1
  {
    if |s| - pos > 6 {
      var t, len := U16At(s, pos), U32At(s, pos + 2);
      assert U16At(s', pos) == t && U32At(s', pos + 2) == len;
      if len > 0 {
        DispatchReads(t, c, m, s, s', BodyAt(t, pos));
        var d := Dispatch(t, c, m, s, BodyAt(t, pos));
        WalkStep(c, m, s, pos, t, len, d);
        WalkStep(c, m, s', pos, t, len, d);
        if d.Some? {
          WalkResumes(c, m, d.value.0, d.value.1, s, s', pos, len);
        }
      }
    }
  }

  /**
   * The walk resynchronises on the declared length: bytes of a block that
   * its handler does not read, between what it reads and the block's
   * declared end, change nothing.
   */
  lemma {:induction false} WalkSkipsUnread(c: Context, m: Message, s: Bytes, s': Bytes, pos: nat, a: nat, b: nat)
    requires |s| - pos > 6 && U32At(s, pos + 2) > 0
    requires var t := U16At(s, pos);
      pos + 6 <= a <= b <= pos + U32At(s, pos + 2) &&
      Dispatch(t, c, m, s, BodyAt(t, pos)) == Dispatch(t, c, m, s', BodyAt(t, pos))
    requires Agree(s, s', pos, a) && Agree(s, s', b, |s|)
    ensures Walk(c, m, s, pos) == Walk(c, m, s', pos)
  {
    var t, len := U16At(s, pos), U32At(s, pos + 2);
    assert U16At(s', pos) == t && U32At(s', pos + 2) == len;
    var d := Dispatch(t, c, m, s, BodyAt(t, pos));
    WalkStep(c, m, s, pos, t, len, d);
    WalkStep(c, m, s', pos, t, len, d);
    if d.Some? {
      WalkResumes(c, m, d.value.0, d.value.1, s, s', pos, len);
    }
  }

  /** Two walks that step over the same block to the same state go on alike when the bytes after the block agree. */
  lemma {:induction false} WalkResumes(c: Context, m: Message, c1: Context, m1: Message, s: Bytes, s': Bytes, pos: nat, len: nat)
    requires Walk(c, m, s, pos) == Walk(c1, m1, s, pos + len)
    requires Walk(c, m, s', pos) == Walk(c1, m1, s', pos + len)
    requires Agree(s, s', pos + len, |s|) && len > 0 && pos < |s|
    ensures Walk(c, m, s, pos) == Walk(c, m, s', pos)
    decreases |s| - pos, 0
  {
    var w := Walk(c1, m1, s, pos + len);
    WalkReads(c1, m1, s, s', pos + len);
    assert Walk(c1, m1, s', pos + len) == w;
  }

  /** One step of the walk over a block of type t with a nonzero length len, whose handler gives d. */
  lemma {:induction false} WalkStep(c: Context, m: Message, s: Bytes, pos: nat, t: nat, len: nat, d: Option<(Context, Message)>)
    requires |s| - pos > 6 && t == U16At(s, pos) && len == U32At(s, pos + 2) && len > 0
    requires d == Dispatch(t, c, m, s, BodyAt(t, pos))
    ensures d.None? ==> Walk(c, m, s, pos) == (c, m)
    ensures d.Some? ==> Walk(c, m, s, pos) == Walk(d.value.0, d.value.1, s, pos + len)
  {
  }

  /**
   * For every block but a tileset, the handler reads one run from the body
   * start: the bytes from the run's end up to the block's declared end can
   * be anything.
   */
  lemma {:induction false} WalkSkipsPadding(c: Context, m: Message, s: Bytes, s': Bytes, pos: nat, a: nat, b: nat)
    requires |s| - pos > 6 && U32At(s, pos + 2) > 0
    requires var t := U16At(s, pos);
      t != WBT_EXTENSION as nat && SpanEnd(t, s, BodyAt(t, pos)) <= a <= b <= pos + U32At(s, pos + 2)
    requires Agree(s, s', pos, a) && Agree(s, s', b, |s|)
    ensures Walk(c, m, s, pos) == Walk(c, m, s', pos)
  {
    var t := U16At(s, pos);
    DispatchReadsSpan(t, c, m, s, s', BodyAt(t, pos));
    WalkSkipsUnread(c, m, s, s', pos, a, b);
  }
}
