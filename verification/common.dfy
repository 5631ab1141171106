/**
 * Shared vocabulary: fixed-width unsigned integers, optional values,
 * little-endian field encoding, and the C library's `atoi` on text.
 */
module Common {

  type u8 = x: int | 0 <= x < 0x100
  type u16 = x: int | 0 <= x < 0x1_0000
  type u32 = x: int | 0 <= x < 0x1_0000_0000
  type Bytes = seq<u8>

  datatype Option<T> = None | Some(value: T)

  /** Little-endian encoding of a 16-bit field, as the stream writers emit it. */
  function LE16(v: u16): (r: Bytes)
    ensures |r| == 2
  {
    [v % 0x100, v / 0x100]
  }

  /** Little-endian encoding of a 32-bit field. */
  function LE32(v: u32): (r: Bytes)
    ensures |r| == 4
  {
    [v % 0x100, (v / 0x100) % 0x100, (v / 0x1_0000) % 0x100, v / 0x100_0000]
  }

  /** The 16-bit little-endian value stored at offset i. */
  function U16At(s: Bytes, i: nat): u16
    requires i + 2 <= |s|
  {
    (s[i] as int) + 0x100 * (s[i + 1] as int)
  }

  /** The 32-bit little-endian value stored at offset i. */
  function U32At(s: Bytes, i: nat): u32
    requires i + 4 <= |s|
  {
    (s[i] as int) + 0x100 * (s[i + 1] as int) + 0x1_0000 * (s[i + 2] as int) + 0x100_0000 * (s[i + 3] as int)
  }

  /** s and t have the same length and the same bytes at the offsets from a up to b. */
  predicate Agree(s: Bytes, t: Bytes, a: nat, b: nat)
  {
    |s| == |t| && forall k :: a <= k < b && k < |s| ==> s[k] == t[k]
  }

  lemma {:induction false} LE16Decodes(v: u16, pre: Bytes, post: Bytes)
    ensures U16At(pre + LE16(v) + post, |pre|) == v
  {
    var s := pre + LE16(v) + post;
    assert s[|pre|] == LE16(v)[0] && s[|pre| + 1] == LE16(v)[1];
  }

  lemma {:induction false} LE32Decodes(v: u32, pre: Bytes, post: Bytes)
    ensures U32At(pre + LE32(v) + post, |pre|) == v
  {
    var s := pre + LE32(v) + post;
    var e := LE32(v);
    assert s[|pre|] == e[0] && s[|pre| + 1] == e[1] && s[|pre| + 2] == e[2] && s[|pre| + 3] == e[3];
    LE32Value(v);
  }

  /** The four bytes of LE32(v) put back together are v. */
  lemma {:induction false} LE32Value(v: u32)
    ensures var e := LE32(v); e[0] as int + 0x100 * (e[1] as int) + 0x1_0000 * (e[2] as int) + 0x100_0000 * (e[3] as int) == v
  {
    var q1 := v / 0x100;
    var q2 := q1 / 0x100;
    assert q2 == v / 0x1_0000;
    assert q2 / 0x100 == v / 0x100_0000;
    assert v == v % 0x100 + 0x100 * q1;
    assert q1 == q1 % 0x100 + 0x100 * q2;
    assert q2 == q2 % 0x100 + 0x100 * (q2 / 0x100);
  }

  /** Truncation of an int to the low 16 bits (a C store into a uint16). */
  function Trunc16(v: int): u16 { v % 0x1_0000 }

  /** Truncation of an int to the low 8 bits (a C store into a uint8). */
  function Trunc8(v: int): u8 { v % 0x100 }

  /** Truncation of an int to the low 32 bits (a C store into a uint32). */
  function Trunc32(v: int): u32 { v % 0x1_0000_0000 }

  // ---------------------------------------------------------------------
  // atoi, as the C library reads a decimal prefix
  // ---------------------------------------------------------------------

  predicate IsDigit(c: char) { '0' <= c <= '9' }

  predicate IsSpace(c: char) {
    c == ' ' || c == '\t' || c == '\n' || c == '\r' || c == 11 as char || c == 12 as char
  }

  function DigitValue(c: char): nat
    requires IsDigit(c)
  {
    (c as int) - ('0' as int)
  }

  /** Length of the run of decimal digits at the start of s. */
  function DigitRun(s: string): (n: nat)
    ensures n <= |s|
    ensures forall k :: 0 <= k < n ==> IsDigit(s[k])
    ensures n < |s| ==> !IsDigit(s[n])
  {
    if |s| == 0 || !IsDigit(s[0]) then 0 else 1 + DigitRun(s[1..])
  }

  /** The value of a string made only of decimal digits, most significant first. */
  function DigitsValue(s: string): nat
    requires forall k :: 0 <= k < |s| ==> IsDigit(s[k])
  {
    if |s| == 0 then 0 else DigitsValue(s[..|s| - 1]) * 10 + DigitValue(s[|s| - 1])
  }

  /**
   * atoi: leading white space, an optional sign, then the longest run of
   * digits; anything that is not a number reads as 0. The C function's
   * behaviour on overflow is undefined; this model uses unbounded integers.
   */
  function Atoi(s: string): int
  {
    if |s| > 0 && IsSpace(s[0]) then Atoi(s[1..])
    else if |s| > 0 && (s[0] == '-' || s[0] == '+') then
      var mag: int := DigitsValue(s[1..][..DigitRun(s[1..])]);
      if s[0] == '-' then -mag else mag
    else DigitsValue(s[..DigitRun(s)])
  }

  /** Decimal text of a natural number, without leading zeros. */
  function Decimal(n: nat): (s: string)
    ensures |s| > 0
    ensures forall k :: 0 <= k < |s| ==> IsDigit(s[k])
  {
    var d := ['0' + (n % 10) as char];
    if n < 10 then d else Decimal(n / 10) + d
  }

  lemma {:induction false} DecimalValue(n: nat)
    ensures DigitsValue(Decimal(n)) == n
  {
    var d := ['0' + (n % 10) as char];
    if n >= 10 {
      var s := Decimal(n / 10) + d;
      assert s[..|s| - 1] == Decimal(n / 10);
      DecimalValue(n / 10);
    }
  }

  /** atoi reads back every number printed in decimal, whatever follows a non-digit. */
  lemma {:induction false} AtoiDecimal(n: nat, rest: string)
    requires |rest| == 0 || !IsDigit(rest[0])
    ensures Atoi(Decimal(n) + rest) == n
  {
    var s := Decimal(n) + rest;
    DigitRunPrefix(Decimal(n), rest);
    assert s[..DigitRun(s)] == Decimal(n);
    DecimalValue(n);
  }

  lemma {:induction false} DigitRunPrefix(ds: string, rest: string)
    requires |ds| > 0 && forall k :: 0 <= k < |ds| ==> IsDigit(ds[k])
    requires |rest| == 0 || !IsDigit(rest[0])
    ensures DigitRun(ds + rest) == |ds|
  {
    var s := ds + rest;
    assert s[1..] == ds[1..] + rest;
    if |ds| > 1 {
      DigitRunPrefix(ds[1..], rest);
    } else {
      assert s[1..] == rest;
    }
  }
}
