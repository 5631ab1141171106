/**
 * The composer against the decoder: what the encoder writes into the
 * context properties and the quant table is what the decoder recovers,
 * the tile grid visits every tile once in row-major order, and the
 * stream header goes out with the first message only.
 */
module RfxRoundTrip {
  import opened Common
  import opened RfxWire
  import opened RfxParse
  import opened RfxCompose
  import opened RfxDecode

  // -----------------------------------------------------------------------
  // Context properties
  // -----------------------------------------------------------------------

  /** The decoder's masks recover the flags and the entropy id the composer packed. */
  lemma {:induction false} PropertiesRoundTrip(c: ComposeContext)
    requires c.flags < 8
    ensures PropertiesFlags(ContextProperties(c)) == c.flags
    ensures PropertiesEntropy(ContextProperties(c)) == EntropyId(c.mode)
  {
    var p := ContextProperties(c) as int;
    var e := EntropyId(c.mode) as int;
    var low := c.flags as int + 0x0028;
    assert p == low + 0x200 * (e + 0x10);
    assert 0 <= low < 0x200;
    assert p % 8 == c.flags as int;
    assert p / 0x200 == e + 0x10;
  }

  /** The decoder, given the composer's context block, takes over its flags and its mode. */
  lemma {:induction false} ContextBlockDecodes(c: ComposeContext, d: Context)
    requires c.flags < 8
    ensures ProcessContext(d, ContextBlock(c), 8) == Some(d.(flags := c.flags, mode := c.mode))
  {
    ContextBlockReads(c);
    PropertiesRoundTrip(c);
  }

  /**
   * The decoder, given the composer's codec-versions block, takes over codec
   * id 1 in both handlers; the as-written handler stores version 0 where
   * the corrected one stores version 1.0.
   */
  lemma {:induction false} CodecVersionsBlockDecodes(d: Context)
    ensures ProcessCodecVersionsCorrected(d, CodecVersionsBlock(), 6) ==
      Some(d.(codecId := 1, codecVersion := WF_VERSION_1_0))
    ensures ProcessCodecVersions(d, CodecVersionsBlock(), 6) == Some(d.(codecId := 1, codecVersion := 0))
  {
    var x := CodecVersions(1, 1, WF_VERSION_1_0);
    CodecVersionsBlockReads();
    BlockAt(CodecVersionsBlock(), WBT_CODEC_VERSIONS, 10, CodecVersionsFields(x));
    CodecVersionsAsWrittenLosesVersion(CodecVersionsBlock(), 6, 1, 1);
  }

  // -----------------------------------------------------------------------
  // Quantisation values
  // -----------------------------------------------------------------------

  /** A list of byte fields is written as the bytes themselves. */
  lemma {:induction false} EmitByteFields(fs: seq<Field>)
    requires forall k :: 0 <= k < |fs| ==> fs[k].F8?
    ensures |Emit(fs)| == |fs|
    ensures forall k :: 0 <= k < |fs| ==> Emit(fs)[k] == fs[k].b
    decreases |fs|
  {
    if |fs| > 0 {
      EmitByteFields(fs[1..]);
      assert Emit(fs) == [fs[0].b] + Emit(fs[1..]);
      forall k | 0 < k < |fs| ensures Emit(fs)[k] == fs[k].b {
        assert Emit(fs)[k] == Emit(fs[1..])[k - 1];
      }
    }
  }

  /** Two values below 16 packed into one byte come back out of its nibbles. */
  lemma {:induction false} PackQuantNibbles(lo: nat, hi: nat)
    requires lo < 16 && hi < 16
    ensures PackQuant(lo, hi) % 16 == lo && PackQuant(lo, hi) / 16 == hi
  {
    assert lo + hi * 16 < 0x100;
  }

  /** Byte j of the packed table holds values 2j and 2j + 1. */
  lemma {:induction false} QuantByteAt(q: QuantSet, j: nat)
    requires 10 * q.numQuants as int <= |q.vals| && j < 5 * q.numQuants as int
    ensures j < |QuantBytes(q)| && QuantBytes(q)[j] == PackQuant(q.vals[2 * j], q.vals[2 * j + 1])
  {
    var fs := QuantFields(q.vals, 5 * q.numQuants as nat);
    EmitByteFields(fs);
  }

  /** Values 2j and 2j + 1 come back out of byte j. */
  lemma {:induction false} QuantPairAt(q: QuantSet, j: nat)
    requires 10 * q.numQuants as int <= |q.vals| && j < 5 * q.numQuants as int
    requires q.vals[2 * j] < 16 && q.vals[2 * j + 1] < 16
    ensures var e := ExpandQuants(QuantBytes(q));
      2 * j + 1 < |e| && e[2 * j] == q.vals[2 * j] && e[2 * j + 1] == q.vals[2 * j + 1]
  {
    QuantByteAt(q, j);
    PackQuantNibbles(q.vals[2 * j], q.vals[2 * j + 1]);
  }

  /**
   * The parser's nibble split undoes the composer's packing: the packed
   * bytes of a quant set expand to its ten values per set, provided each
   * value fits in four bits.
   */
  lemma {:induction false} QuantsRoundTrip(q: QuantSet)
    requires 10 * q.numQuants as int <= |q.vals|
    requires forall k :: 0 <= k < 10 * q.numQuants as int ==> q.vals[k] < 16
    ensures ExpandQuants(QuantBytes(q)) == q.vals[..10 * q.numQuants as int]
  {
    var e := ExpandQuants(QuantBytes(q));
    var v := q.vals[..10 * q.numQuants as int];
    forall k | 0 <= k < |v| ensures e[k] == v[k] {
      var j := k / 2;
      QuantPairAt(q, j);
      assert k == 2 * j || k == 2 * j + 1;
    }
  }

  /** The default table has one set of ten values, all of them nibbles. */
  lemma {:induction false} DefaultQuantsRoundTrip()
    ensures ExpandQuants(QuantBytes(QuantSet(1, DefaultQuants, 0, 0, 0))) == DefaultQuants
  {
    QuantsRoundTrip(QuantSet(1, DefaultQuants, 0, 0, 0));
    assert DefaultQuants[..10] == DefaultQuants;
  }

  // -----------------------------------------------------------------------
  // The tile grid
  // -----------------------------------------------------------------------

  /** A product grows with its first factor. */
  lemma {:induction false} MulMonotone(a: nat, b: nat, n: nat)
    requires a <= b
    ensures a * n <= b * n
    decreases b - a
  {
    if a < b {
      MulMonotone(a, b - 1, n);
      assert b * n == (b - 1) * n + n;
    }
  }

  lemma {:induction false} DivModUnique(a: nat, n: nat, q: nat, r: nat)
    requires 0 < n && r < n && a == q * n + r
    ensures a / n == q && a % n == r
  {
    var q', r' := a / n, a % n;
    assert a == q' * n + r';
    if q' < q {
      MulMonotone(q' + 1, q, n);
    } else if q < q' {
      MulMonotone(q + 1, q', n);
    }
  }

  /** Tile (x, y) of the grid is job y * nX + x: the jobs run row by row, left to right. */
  lemma {:induction false} TileJobsRowMajor(f: Frame, bpp: u8, q: QuantSet, x: nat, y: nat)
    requires x < TileCount(f.width) && y < TileCount(f.height)
    ensures var k := y * TileCount(f.width) + x;
      k < |TileJobs(f, bpp, q)| && TileJobs(f, bpp, q)[k] == TileJobAt(f, bpp, q, x, y)
  {
    var nX, nY := TileCount(f.width), TileCount(f.height);
    var k := y * nX + x;
    DivModUnique(k, nX, y, x);
    assert k < nX * nY by {
      assert (y + 1) * nX == y * nX + nX;
      MulMonotone(y + 1, nY, nX);
    }
  }

  /** Every job is some tile of the grid. */
  lemma {:induction false} TileJobsInGrid(f: Frame, bpp: u8, q: QuantSet, k: nat)
    requires k < |TileJobs(f, bpp, q)|
    ensures var j := TileJobs(f, bpp, q)[k];
      j.xIdx < TileCount(f.width) && j.yIdx < TileCount(f.height) &&
      k == j.yIdx * TileCount(f.width) + j.xIdx
  {
    var nX, nY := TileCount(f.width), TileCount(f.height);
    GridIndex(k, nX, nY);
    var x, y := k % nX, k / nX;
    var j := TileJobs(f, bpp, q)[k];
    assert j == TileJobAt(f, bpp, q, x, y);
    assert j.xIdx == x && j.yIdx == y;
  }

  /** Index k of an nX-by-nY grid in row-major order is column k % nX of row k / nX. */
  lemma {:induction false} GridIndex(k: nat, nX: nat, nY: nat)
    requires k < nX * nY
    ensures 0 < nX && k / nX < nY && k == (k / nX) * nX + k % nX && k % nX < nX
  {
    if nX > 0 && k / nX >= nY {
      MulMonotone(nY, k / nX, nX);
    }
  }

  /**
   * Along each axis the tiles are 64 pixels except the last, which takes
   * the rest, between 1 and 64: the tile widths of a row add up to the
   * frame width.
   */
  lemma {:induction false} TileWidthsCover(f: Frame, bpp: u8, q: QuantSet, y: nat)
    requires 0 < f.width && y < TileCount(f.height)
    ensures var nX := TileCount(f.width);
      (forall x :: 0 <= x < nX ==> 0 < TileJobAt(f, bpp, q, x, y).width <= 64) &&
      (forall x :: 0 <= x < nX - 1 ==> TileJobAt(f, bpp, q, x, y).width == 64) &&
      64 * (nX - 1) + TileJobAt(f, bpp, q, nX - 1, y).width == f.width
  {
  }

  /** The same for the heights of a column. */
  lemma {:induction false} TileHeightsCover(f: Frame, bpp: u8, q: QuantSet, x: nat)
    requires 0 < f.height && x < TileCount(f.width)
    ensures var nY := TileCount(f.height);
      (forall y :: 0 <= y < nY ==> 0 < TileJobAt(f, bpp, q, x, y).height <= 64) &&
      (forall y :: 0 <= y < nY - 1 ==> TileJobAt(f, bpp, q, x, y).height == 64) &&
      64 * (nY - 1) + TileJobAt(f, bpp, q, x, nY - 1).height == f.height
  {
  }

  // -----------------------------------------------------------------------
  // The header state machine
  // -----------------------------------------------------------------------

  /** A context the composer can be in: either the header went out, or no frame has yet. */
  predicate StreamState(c: ComposeContext)
  {
    c.headerProcessed || c.frameIdx == 0
  }

  /** Reset puts the composer back to sending the header. */
  lemma {:induction false} ResetSendsHeader(c: ComposeContext)
    ensures SendsHeader(ComposeReset(c)) && StreamState(ComposeReset(c))
  {
  }

  /** After any message the header is marked sent, so the next message does not carry it. */
  lemma {:induction false} HeaderSentOnce(c: ComposeContext)
    requires StreamState(c)
    ensures StreamState(NextContext(c)) && !SendsHeader(NextContext(c))
  {
  }

  /** The context after n messages. */
  function AfterMessages(c: ComposeContext, n: nat): ComposeContext
    decreases n
  {
    if n == 0 then c else AfterMessages(NextContext(c), n - 1)
  }

  /**
   * A stream of n messages from a reset context carries the header in the
   * first only, and the frame index counts the messages modulo 2^32.
   */
  lemma {:induction false} StreamCounts(c: ComposeContext, n: nat)
    requires StreamState(c)
    ensures AfterMessages(c, n).frameIdx == Trunc32(c.frameIdx as int + n)
    ensures n > 0 ==> !SendsHeader(AfterMessages(c, n))
    ensures StreamState(AfterMessages(c, n))
    decreases n
  {
    if n > 0 {
      HeaderSentOnce(c);
      StreamCounts(NextContext(c), n - 1);
      TruncAbsorbs(c.frameIdx as int + 1, n - 1);
    }
  }

  /** Truncating an intermediate sum does not change the truncated total. */
  lemma {:induction false} TruncAbsorbs(x: int, m: nat)
    ensures Trunc32(Trunc32(x) + m) == Trunc32(x + m)
  {
    var q := x / 0x1_0000_0000;
    assert x == q * 0x1_0000_0000 + Trunc32(x);
    assert x + m == q * 0x1_0000_0000 + (Trunc32(x) + m);
  }

  /** The first bytes of a concatenation are those of its first part. */
  lemma {:induction false} Opens(a: Bytes, b: Bytes, n: nat)
    requires n <= |a|
    ensures (a + b)[..n] == a[..n]
  {
  }

  /** A frame opens with its frame-begin block. */
  lemma {:induction false} DataOpens(c: ComposeContext, rects: seq<RfxRect>, f: Frame, encode: TileJob -> EncodedTile)
    requires QuantsHeld(c)
    ensures var d := ComposeData(c, rects, f, encode).0; |d| >= 14 && d[..14] == FrameBeginBlock(c)
  {
    var c' := c.(frameIdx := Trunc32(c.frameIdx as int + 1));
    var a, b := FrameBeginBlock(c), RegionBlock(rects);
    var t := TilesetBlock(FrameTileset(c', f, encode));
    assert ComposeData(c, rects, f, encode).0 == a + b + t + FrameEndBlock();
    Opens(a + b + t, FrameEndBlock(), 14);
    Opens(a + b, t, 14);
    Opens(a, b, 14);
    assert a[..14] == a;
  }

  /** A message opens with the sync block exactly when the header is due, and otherwise with the frame. */
  lemma {:induction false} MessageOpens(c: ComposeContext, rects: seq<RfxRect>, f: Frame, encode: TileJob -> EncodedTile)
    requires QuantsHeld(c)
    ensures var b := MessageBytes(c, rects, f, encode);
      if SendsHeader(c) then |b| >= 12 && b[..12] == SyncBlock()
      else |b| >= 14 && b[..14] == FrameBeginBlock(c)
  {
    if SendsHeader(c) {
      var h := ComposeHeader(c);
      var d := ComposeData(h.1, rects, f, encode).0;
      var s, x, v, ch := SyncBlock(), ContextBlock(c), CodecVersionsBlock(), ChannelsBlock(c);
      assert MessageBytes(c, rects, f, encode) == s + x + v + ch + d;
      Opens(s + x + v + ch, d, 12);
      Opens(s + x + v, ch, 12);
      Opens(s + x, v, 12);
      Opens(s, x, 12);
      assert s[..12] == s;
    } else {
      DataOpens(c, rects, f, encode);
    }
  }
}
