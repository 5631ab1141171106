/**
 * Byte-level vocabulary of the RemoteFX codec stream: the block-type
 * constants of [MS-RDPRFX] section 2.2.2, little-endian fields as the
 * stream writers emit them, and bounds-checked readers for the parsers.
 */
module RfxWire {
  import opened Common

  // -----------------------------------------------------------------------
  // Constants of [MS-RDPRFX] section 2.2.2
  // -----------------------------------------------------------------------

  const WBT_SYNC: u16 := 0xCCC0
  const WBT_CODEC_VERSIONS: u16 := 0xCCC1
  const WBT_CHANNELS: u16 := 0xCCC2
  const WBT_CONTEXT: u16 := 0xCCC3
  const WBT_FRAME_BEGIN: u16 := 0xCCC4
  const WBT_FRAME_END: u16 := 0xCCC5
  const WBT_REGION: u16 := 0xCCC6
  const WBT_EXTENSION: u16 := 0xCCC7
  const CBT_REGION: u16 := 0xCAC1
  const CBT_TILESET: u16 := 0xCAC2
  const CBT_TILE: u16 := 0xCAC3

  const WF_MAGIC: u32 := 0xCACCACCA
  const WF_VERSION_1_0: u16 := 0x0100
  const CT_TILE_64x64: u16 := 0x0040

  const CLW_ENTROPY_RLGR1: u16 := 1
  const CLW_ENTROPY_RLGR3: u16 := 4
  const COL_CONV_ICT: u16 := 1
  const CLW_XFORM_DWT_53_A: u16 := 1
  const SCALAR_QUANTIZATION: u16 := 1

  // -----------------------------------------------------------------------
  // Writing: a block is a list of fixed-width fields
  // -----------------------------------------------------------------------

  datatype Width = W8 | W16 | W32

  /** One field as written by stream_write_uint8/16/32. */
  datatype Field = F8(b: u8) | F16(h: u16) | F32(w: u32)

  function WidthOf(f: Field): Width
  {
    match f
    case F8(_) => W8
    case F16(_) => W16
    case F32(_) => W32
  }

  function ValueOf(f: Field): nat
  {
    match f
    case F8(b) => b
    case F16(h) => h
    case F32(w) => w
  }

  function ByteCount(w: Width): nat
  {
    match w
    case W8 => 1
    case W16 => 2
    case W32 => 4
  }

  /** The values a field of this width can hold. */
  function Bound(w: Width): nat
  {
    match w
    case W8 => 0x100
    case W16 => 0x1_0000
    case W32 => 0x1_0000_0000
  }

  function FieldBytes(f: Field): (r: Bytes)
    ensures |r| == ByteCount(WidthOf(f))
  {
    match f
    case F8(b) => [b]
    case F16(h) => LE16(h)
    case F32(w) => LE32(w)
  }

  /** The bytes of a list of fields written one after the other. */
  function Emit(fs: seq<Field>): Bytes
  {
    if |fs| == 0 then [] else FieldBytes(fs[0]) + Emit(fs[1..])
  }

  function Widths(fs: seq<Field>): (ws: seq<Width>)
    ensures |ws| == |fs|
    ensures forall k :: 0 <= k < |fs| ==> ws[k] == WidthOf(fs[k])
  {
    if |fs| == 0 then [] else [WidthOf(fs[0])] + Widths(fs[1..])
  }

  function Values(fs: seq<Field>): (vs: seq<nat>)
    ensures |vs| == |fs|
    ensures forall k :: 0 <= k < |fs| ==> vs[k] == ValueOf(fs[k])
  {
    if |fs| == 0 then [] else [ValueOf(fs[0])] + Values(fs[1..])
  }

  function TotalBytes(ws: seq<Width>): nat
  {
    if |ws| == 0 then 0 else ByteCount(ws[0]) + TotalBytes(ws[1..])
  }

  lemma {:induction false} EmitConcat(a: seq<Field>, b: seq<Field>)
    ensures Emit(a + b) == Emit(a) + Emit(b)
  {
    if |a| > 0 {
      assert (a + b)[1..] == a[1..] + b;
      EmitConcat(a[1..], b);
    } else {
      assert a + b == b;
    }
  }

  /** Overwrite part of an already written buffer, as stream_set_pos followed by a write. */
  function Patch(s: Bytes, at: nat, v: Bytes): (r: Bytes)
    requires at + |v| <= |s|
    ensures |r| == |s|
  {
    s[..at] + v + s[at + |v|..]
  }

  // -----------------------------------------------------------------------
  // Reading: bounds-checked fields at a cursor
  // -----------------------------------------------------------------------

  /** A value read from the stream and the cursor after it. */
  datatype Read<T> = Read(value: T, next: nat)

  /** The bytes b sit in s at offset p. */
  predicate BytesAt(s: Bytes, p: nat, b: Bytes)
  {
    p + |b| <= |s| && s[p..p + |b|] == b
  }

  /** Bytes in a buffer are there as a prefix, and the rest after them. */
  lemma {:induction false} BytesAtSplit(s: Bytes, p: nat, a: Bytes, b: Bytes, e: Bytes)
    requires e == a + b && BytesAt(s, p, e)
    ensures BytesAt(s, p, a) && BytesAt(s, p + |a|, b)
  {
    assert s[p..p + |a|] == (a + b)[..|a|];
    assert s[p + |a|..p + |a| + |b|] == (a + b)[|a|..];
  }

  /** What is written between pre and post sits at offset |pre|. */
  lemma {:induction false} BytesAtMiddle(pre: Bytes, b: Bytes, post: Bytes)
    ensures BytesAt(pre + b + post, |pre|, b)
  {
    assert (pre + b + post)[|pre|..|pre| + |b|] == b;
  }

  /** A written list is its first field, then the rest. */
  lemma {:induction false} EmitCons(fs: seq<Field>)
    requires |fs| > 0
    ensures Emit(fs) == FieldBytes(fs[0]) + Emit(fs[1..])
  {
  }

  /** The value of a field of width w stored at p. */
  function ValueAt(s: Bytes, p: nat, w: Width): (v: nat)
    requires p + ByteCount(w) <= |s|
    ensures v < Bound(w)
  {
    match w
    case W8 => s[p] as nat
    case W16 => U16At(s, p)
    case W32 => U32At(s, p)
  }

  /** The fields fs are stored one after the other from p. */
  predicate FieldsAt(s: Bytes, p: nat, fs: seq<Field>)
    decreases |fs|
  {
    if |fs| == 0 then p <= |s|
    else (p + ByteCount(WidthOf(fs[0])) <= |s| && ValueAt(s, p, WidthOf(fs[0])) == ValueOf(fs[0])
      && FieldsAt(s, p + ByteCount(WidthOf(fs[0])), fs[1..]))
  }

  /** Two lists written one after the other sit one after the other in a buffer. */
  lemma {:induction false} EmitSplitAt(s: Bytes, p: nat, a: seq<Field>, b: seq<Field>)
    requires BytesAt(s, p, Emit(a + b))
    ensures BytesAt(s, p, Emit(a)) && BytesAt(s, p + |Emit(a)|, Emit(b))
  {
    EmitConcat(a, b);
    BytesAtSplit(s, p, Emit(a), Emit(b), Emit(a + b));
  }

  /** A written field, wherever it sits in a buffer, has its value there. */
  lemma {:induction false} FieldAt(s: Bytes, p: nat, f: Field, fb: Bytes)
    requires fb == FieldBytes(f) && BytesAt(s, p, fb)
    ensures p + ByteCount(WidthOf(f)) <= |s| && ValueAt(s, p, WidthOf(f)) == ValueOf(f)
  {
    var w := s[p..p + |fb|];
    assert s[p] == w[0] == fb[0];
    match f
    case F8(b) =>
    case F16(h) =>
      assert s[p + 1] == w[1] == fb[1];
    case F32(x) =>
      assert s[p + 1] == w[1] == fb[1] && s[p + 2] == w[2] == fb[2] && s[p + 3] == w[3] == fb[3];
      LE32Value(x);
  }

  /** A written byte, wherever it sits in a buffer, is there. */
  lemma {:induction false} ByteAt(s: Bytes, p: nat, v: u8)
    requires BytesAt(s, p, Emit([F8(v)]))
    ensures p < |s| && s[p] == v
  {
    assert Emit([F8(v)]) == [v] + Emit([]);
    assert s[p..p + 1][0] == v;
  }

  /** Written fields, wherever they sit in a buffer, are stored there one after the other. */
  lemma {:induction false} EmitFieldsAt(s: Bytes, p: nat, fs: seq<Field>, e: Bytes)
    requires e == Emit(fs) && BytesAt(s, p, e)
    ensures FieldsAt(s, p, fs)
    decreases |fs|
  {
    if |fs| > 0 {
      var a, b := FieldBytes(fs[0]), Emit(fs[1..]);
      EmitCons(fs);
      BytesAtSplit(s, p, a, b, e);
      FieldAt(s, p, fs[0], a);
      EmitFieldsAt(s, p + |a|, fs[1..], b);
    }
  }

  /** The size of a list of fields, given their widths field by field. */
  lemma {:induction false} SizeByWidths(fs: seq<Field>, ws: seq<Width>)
    requires |fs| == |ws| && forall k :: 0 <= k < |fs| ==> WidthOf(fs[k]) == ws[k]
    ensures |Emit(fs)| == TotalBytes(ws)
    decreases |fs|
  {
    if |fs| > 0 {
      SizeByWidths(fs[1..], ws[1..]);
    }
  }

  /** Fields of the same widths take the same number of bytes. */
  lemma {:induction false} SameWidthsSameSize(fs: seq<Field>, gs: seq<Field>)
    requires Widths(fs) == Widths(gs)
    ensures |Emit(fs)| == |Emit(gs)|
  {
    SizeByWidths(fs, Widths(fs));
    SizeByWidths(gs, Widths(gs));
  }

  /**
   * Going back over written fields and writing others of the same widths
   * in their place gives the bytes of the second list written directly.
   */
  lemma {:induction false} PatchFields(pre: seq<Field>, fs: seq<Field>, gs: seq<Field>, post: seq<Field>, tail: Bytes)
    requires Widths(fs) == Widths(gs)
    ensures |Emit(pre)| + |Emit(gs)| <= |Emit(pre + fs + post) + tail|
    ensures Patch(Emit(pre + fs + post) + tail, |Emit(pre)|, Emit(gs)) == Emit(pre + gs + post) + tail
  {
    SameWidthsSameSize(fs, gs);
    var a, b, c, d := Emit(pre), Emit(fs), Emit(post), Emit(gs);
    EmitConcat(pre, fs);
    EmitConcat(pre + fs, post);
    EmitConcat(pre, gs);
    EmitConcat(pre + gs, post);
    assert Emit(pre + fs + post) == a + b + c;
    assert Emit(pre + gs + post) == a + d + c;
    PatchMiddle(a, b, c, tail, d);
  }

  lemma {:induction false} PatchMiddle(a: Bytes, b: Bytes, c: Bytes, tail: Bytes, d: Bytes)
    requires |b| == |d|
    ensures Patch(a + b + c + tail, |a|, d) == a + d + c + tail
  {
    var s := a + b + c + tail;
    assert s[..|a|] == a;
    assert s[|a| + |d|..] == c + tail;
  }

  /** Patching the second of four written parts, as a block length after its block type. */
  lemma {:induction false} PatchSecond(a: seq<Field>, b: seq<Field>, c: seq<Field>, d: seq<Field>, nb: seq<Field>, tail: Bytes)
    requires Widths(b) == Widths(nb)
    ensures |Emit(a)| + |Emit(nb)| <= |Emit(a + b + c + d) + tail|
    ensures Patch(Emit(a + b + c + d) + tail, |Emit(a)|, Emit(nb)) == Emit(a + nb + c + d) + tail
  {
    assert a + b + c + d == a + b + (c + d);
    assert a + nb + c + d == a + nb + (c + d);
    PatchFields(a, b, nb, c + d, tail);
  }

  /** Patching the last of four written parts. */
  lemma {:induction false} PatchFourth(a: seq<Field>, b: seq<Field>, c: seq<Field>, d: seq<Field>, nd: seq<Field>, tail: Bytes)
    requires Widths(d) == Widths(nd)
    ensures |Emit(a + b + c)| + |Emit(nd)| <= |Emit(a + b + c + d) + tail|
    ensures Patch(Emit(a + b + c + d) + tail, |Emit(a + b + c)|, Emit(nd)) == Emit(a + b + c + nd) + tail
  {
    assert a + b + c + d == a + b + c + d + [];
    assert a + b + c + nd == a + b + c + nd + [];
    PatchFields(a + b + c, d, nd, [], tail);
  }

  /** One field on its own is written as its bytes. */
  lemma {:induction false} OneField(f: Field)
    ensures Emit([f]) == FieldBytes(f)
  {
    assert [f][1..] == [];
  }

  // -----------------------------------------------------------------------
  // Block headers
  // -----------------------------------------------------------------------

  /** The six-byte TS_RFX_BLOCKT header: the block type, then the block length. */
  function BlockHeader(t: u16, len: u32): seq<Field>
  {
    [F16(t), F32(len)]
  }

  /** The codecId and channelId bytes of a TS_RFX_CODEC_CHANNELT header. */
  const CodecChannel: seq<Field> := [F8(1), F8(0)]

  /** A written block starts with its type and length, and its body follows at offset 6. */
  lemma {:induction false} BlockAt(s: Bytes, t: u16, len: u32, body: seq<Field>)
    requires s == Emit(BlockHeader(t, len) + body)
    ensures |s| == 6 + |Emit(body)|
    ensures U16At(s, 0) == t && U32At(s, 2) == len && BytesAt(s, 6, Emit(body))
  {
    var h := BlockHeader(t, len);
    assert s[0..|s|] == s;
    EmitSplitAt(s, 0, h, body);
    SizeByWidths(h, [W16, W32]);
    EmitFieldsAt(s, 0, h, Emit(h));
    assert FieldsAt(s, 2, h[1..]);
  }

  /** A written codec-channel block: the header, the codec and channel ids, and the body at offset 8. */
  lemma {:induction false} ChannelBlockAt(s: Bytes, t: u16, len: u32, body: seq<Field>)
    requires s == Emit(BlockHeader(t, len) + (CodecChannel + body))
    ensures |s| == 8 + |Emit(body)|
    ensures U16At(s, 0) == t && U32At(s, 2) == len && BytesAt(s, 8, Emit(body))
  {
    BlockAt(s, t, len, CodecChannel + body);
    EmitSplitAt(s, 6, CodecChannel, body);
    SizeByWidths(CodecChannel, [W8, W8]);
    EmitConcat(CodecChannel, body);
  }
}
