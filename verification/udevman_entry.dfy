/**
 * The start-up half of the USB redirection channel's device manager
 * (channels/drdynvc/urbdrc/libusb/libusb_udevman.c): the "bus_dev"
 * tokens of the plugin argument are parsed, and each address is
 * registered in turn with a sequential `UsbDevice` number.
 */
module UsbDevManEntry {
  import opened Common
  import opened UsbDevMan

  /** A C string holds no NUL character. */
  predicate CString(s: string) {
    forall k :: 0 <= k < |s| ==> s[k] != '\0'
  }

  /** Index of the first c in s, or |s| when there is none (`strchr`). */
  function IndexOfChar(s: string, c: char): (k: nat)
    ensures k <= |s|
    ensures k < |s| ==> s[k] == c
    ensures forall j :: 0 <= j < k ==> s[j] != c
  {
    if |s| == 0 || s[0] == c then 0 else 1 + IndexOfChar(s[1..], c)
  }

  /**
   * `udevman_parse_twoIDs_form_str`: the text before the first separator
   * and the text after it, each read with `atoi`. The prefix is copied into
   * a zeroed five-byte buffer, so the C code is defined only for prefixes of
   * at most four characters and only when the separator occurs; those are
   * the inputs that give a value here.
   */
  function ParseTwoIds(s: string, sign: char): (r: Option<(int, int)>)
    requires CString(s) && sign != '\0'
    ensures r.Some? <==> exists k :: 0 <= k < |s| && k <= 4 && s[k] == sign
    ensures r.Some? ==> var k := IndexOfChar(s, sign); r.value == (Atoi(s[..k]), Atoi(s[k + 1..]))
  {
    var k := IndexOfChar(s, sign);
    if k < |s| && k <= 4 then Some((Atoi(s[..k]), Atoi(s[k + 1..]))) else None
  }

  function Pow10(j: nat): nat {
    if j == 0 then 1 else 10 * Pow10(j - 1)
  }

  lemma {:induction false} DecimalLength(n: nat, j: nat)
    requires 1 <= j && n < Pow10(j)
    ensures |Decimal(n)| <= j
    decreases j
  {
    if n >= 10 {
      assert j > 1;
      DecimalLength(n / 10, j - 1);
    }
  }

  /** Printing two numbers around a non-digit separator parses back, for a first number below 10000. */
  lemma {:induction false} ParseTwoIdsDecimal(bus: nat, dev: nat, sign: char)
    requires bus < 10000
    requires sign != '\0' && !IsDigit(sign)
    ensures CString(Decimal(bus) + [sign] + Decimal(dev))
    ensures ParseTwoIds(Decimal(bus) + [sign] + Decimal(dev), sign) == Some((bus, dev))
  {
    var a := Decimal(bus);
    var s := a + [sign] + Decimal(dev);
    DecimalLength(bus, 4);
    forall j | 0 <= j < |s| ensures s[j] != '\0' && (j < |a| ==> s[j] != sign) {
      if j < |a| { assert s[j] == a[j]; }
      else if j > |a| { assert s[j] == Decimal(dev)[j - |a| - 1]; }
    }
    assert s[|a|] == sign;
    assert IndexOfChar(s, sign) == |a|;
    assert s[..|a|] == a + [];
    assert s[|a| + 1..] == Decimal(dev) + [];
    AtoiDecimal(bus, []);
    AtoiDecimal(dev, []);
  }

  /** The character between the bus and the device number of a token. */
  const BusDevSeparator: char := '_'

  /** A token the start-up loop can handle: it fits `hardware_id[16]` and parses. */
  predicate Token(t: string) {
    && |t| <= 15
    && CString(t)
    && ParseTwoIds(t, BusDevSeparator).Some?
  }

  /** The successful creations, in order. */
  function Created(made: seq<Option<Handle>>): (hs: seq<Handle>)
    ensures |hs| <= |made|
  {
    if |made| == 0 then []
    else if made[0].Some? then [made[0].value] + Created(made[1..])
    else Created(made[1..])
  }

  /** Every successful creation gives a handle not yet in heap, and no handle twice. */
  predicate FreshHandles(heap: map<Handle, Device>, made: seq<Option<Handle>>) {
    && (forall i :: 0 <= i < |made| && made[i].Some? ==> made[i].value !in heap)
    && (forall i, j :: 0 <= i < j < |made| && made[i].Some? && made[j].Some? ==> made[i].value != made[j].value)
  }

  /** The bus and device numbers of one token. */
  function Address(t: string): (a: (int, int))
    requires Token(t)
    ensures Some(a) == ParseTwoIds(t, BusDevSeparator)
  {
    ParseTwoIds(t, BusDevSeparator).value
  }

  /** The bus and device numbers of every token, in order. */
  function Addresses(tokens: seq<string>): (addrs: seq<(int, int)>)
    requires forall i :: 0 <= i < |tokens| ==> Token(tokens[i])
    ensures |addrs| == |tokens|
    ensures forall i :: 0 <= i < |tokens| ==> Token(tokens[i]) && Some(addrs[i]) == ParseTwoIds(tokens[i], BusDevSeparator)
  {
    if |tokens| == 0 then []
    else [Address(tokens[0])] + Addresses(tokens[1..])
  }

  /** The outcome of creating the device at an address. */
  function MadeAt(addr: (int, int), made: Option<Handle>): Option<Made> {
    if made.Some? then Some(Made(made.value, addr.0, addr.1)) else None
  }

  /**
   * The registration loop of `FreeRDPUDEVMANEntry` from id `usb` on: each
   * address is registered with option "new", and the id advances (as a
   * `uint32`) only when the registration succeeded. `made[i]` is the
   * outcome of creating the device at address i.
   */
  function RegisterAll(m: DevMan, usb: u32, addrs: seq<(int, int)>, made: seq<Option<Handle>>): (DevMan, u32)
    requires |made| == |addrs|
    requires WellEnded(m)
    decreases |addrs|
  {
    if |addrs| == 0 then (m, usb)
    else
      var r := Register(m, usb, Some("new"), MadeAt(addrs[0], made[0]));
      RegisterAll(r.1, if r.0 == 1 then Trunc32(usb + 1) else usb, addrs[1..], made[1..])
  }

  /**
   * `FreeRDPUDEVMANEntry`: a new manager, every token's address registered
   * in order, and the next free id kept. The tokens are the `#`-separated
   * entries of the plugin argument.
   */
  function Entry(tokens: seq<string>, made: seq<Option<Handle>>): DevMan
    requires |made| == |tokens|
    requires forall i :: 0 <= i < |tokens| ==> Token(tokens[i])
  {
    var r := RegisterAll(NewDevMan(), BASE_USBDEVICE_NUM, Addresses(tokens), made);
    r.0.(defUsbDevice := r.1)
  }

  /** ns[i] carries id usb + i, as a `uint32`. */
  predicate Numbered(heap: map<Handle, Device>, ns: seq<Handle>, usb: u32) {
    forall i :: 0 <= i < |ns| ==> ns[i] in heap && heap[ns[i]].usbDevice == Trunc32(usb + i)
  }

  lemma {:induction false} TruncShift(usb: u32, i: int)
    ensures Trunc32(Trunc32(usb + 1) + i) == Trunc32(usb + 1 + i)
  {
    if usb + 1 == 0x1_0000_0000 {
      assert Trunc32(usb + 1) == 0;
      assert (usb + 1 + i) % 0x1_0000_0000 == i % 0x1_0000_0000;
    }
  }

  lemma {:induction false} NumberedCons(heap: map<Handle, Device>, h: Handle, rest: seq<Handle>, usb: u32)
    requires h in heap && heap[h].usbDevice == usb
    requires Numbered(heap, rest, Trunc32(usb + 1))
    ensures Numbered(heap, [h] + rest, usb)
  {
    var ns := [h] + rest;
    forall i | 0 <= i < |ns| ensures ns[i] in heap && heap[ns[i]].usbDevice == Trunc32(usb + i) {
      if i > 0 {
        assert ns[i] == rest[i - 1];
        TruncShift(usb, i - 1);
      }
    }
  }

  lemma {:induction false} FreshRest(heap: map<Handle, Device>, heap1: map<Handle, Device>, made: seq<Option<Handle>>)
    requires |made| > 0
    requires FreshHandles(heap, made)
    requires heap1.Keys == heap.Keys + (if made[0].Some? then {made[0].value} else {})
    ensures FreshHandles(heap1, made[1..])
  {
    forall i | 0 <= i < |made[1..]| && made[1..][i].Some? ensures made[1..][i].value !in heap1 {
      assert made[1..][i] == made[i + 1];
    }
    forall i, j | 0 <= i < j < |made[1..]| && made[1..][i].Some? && made[1..][j].Some?
      ensures made[1..][i].value != made[1..][j].value
    {
      assert made[1..][i] == made[i + 1] && made[1..][j] == made[j + 1];
    }
  }

  /** The step of RegisterAllNumbers after a successful creation of h. */
  lemma {:induction false} AppendNumbers(m: DevMan, m1: DevMan, r: (DevMan, u32), hs: seq<Handle>, h: Handle, rest: seq<Handle>, usb: u32)
    requires h in m1.heap && m1.heap[h].usbDevice == usb
    requires SameIds(m.heap, m1.heap)
    requires Linked(r.0, (hs + [h]) + rest)
    requires r.1 == Trunc32(Trunc32(usb + 1) + |rest|)
    requires Numbered(r.0.heap, rest, Trunc32(usb + 1))
    requires SameIds(m1.heap, r.0.heap)
    ensures Linked(r.0, hs + ([h] + rest))
    ensures r.1 == Trunc32(usb + |[h] + rest|)
    ensures Numbered(r.0.heap, [h] + rest, usb)
    ensures SameIds(m.heap, r.0.heap)
  {
    assert (hs + [h]) + rest == hs + ([h] + rest);
    TruncShift(usb, |rest|);
    NumberedCons(r.0.heap, h, rest, usb);
  }

  /**
   * The registration loop appends every created device in order, numbers
   * them consecutively from `usb`, keeps the ids already given, and ends
   * with the next unused number.
   */
  lemma {:induction false} RegisterAllNumbers(m: DevMan, hs: seq<Handle>, usb: u32, addrs: seq<(int, int)>, made: seq<Option<Handle>>)
    requires |made| == |addrs|
    requires Linked(m, hs)
    requires FreshHandles(m.heap, made)
    ensures WellEnded(m)
    ensures var r := RegisterAll(m, usb, addrs, made); var ns := Created(made);
      && Linked(r.0, hs + ns)
      && r.1 == Trunc32(usb + |ns|)
      && Numbered(r.0.heap, ns, usb)
      && SameIds(m.heap, r.0.heap)
    decreases |addrs|, 1
  {
    if |addrs| == 0 {
      assert hs + [] == hs;
    } else if made[0].Some? {
      CreatedStep(m, hs, usb, addrs, made);
    } else {
      FailedStep(m, hs, usb, addrs, made);
    }
  }

  /** RegisterAllNumbers when the first creation failed. */
  lemma {:induction false} FailedStep(m: DevMan, hs: seq<Handle>, usb: u32, addrs: seq<(int, int)>, made: seq<Option<Handle>>)
    requires |made| == |addrs|
    requires Linked(m, hs)
    requires FreshHandles(m.heap, made)
    requires |addrs| > 0 && made[0].None?
    ensures var r := RegisterAll(m, usb, addrs, made); var ns := Created(made);
      && Linked(r.0, hs + ns)
      && r.1 == Trunc32(usb + |ns|)
      && Numbered(r.0.heap, ns, usb)
      && SameIds(m.heap, r.0.heap)
    decreases |addrs|, 0
  {
    FreshRest(m.heap, m.heap, made);
    assert MadeAt(addrs[0], made[0]) == None;
    assert Register(m, usb, Some("new"), None) == (0, m);
    assert RegisterAll(m, usb, addrs, made) == RegisterAll(m, usb, addrs[1..], made[1..]);
    assert Created(made) == Created(made[1..]);
    RegisterAllNumbers(m, hs, usb, addrs[1..], made[1..]);
  }

  /** RegisterAllNumbers when the first creation succeeded. */
  lemma {:induction false} CreatedStep(m: DevMan, hs: seq<Handle>, usb: u32, addrs: seq<(int, int)>, made: seq<Option<Handle>>)
    requires |made| == |addrs|
    requires Linked(m, hs)
    requires FreshHandles(m.heap, made)
    requires |addrs| > 0 && made[0].Some?
    ensures var r := RegisterAll(m, usb, addrs, made); var ns := Created(made);
      && Linked(r.0, hs + ns)
      && r.1 == Trunc32(usb + |ns|)
      && Numbered(r.0.heap, ns, usb)
      && SameIds(m.heap, r.0.heap)
    decreases |addrs|, 0
  {
    var h := made[0].value;
    var mk := MadeAt(addrs[0], made[0]);
    var m1 := Register(m, usb, Some("new"), mk).1;
    var rest := Created(made[1..]);
    FreshRest(m.heap, m1.heap, made);
    RegisterAppends(m, hs, usb, Some("new"), mk.value);
    assert RegisterAll(m, usb, addrs, made) == RegisterAll(m1, Trunc32(usb + 1), addrs[1..], made[1..]);
    RegisterAllNumbers(m1, hs + [h], Trunc32(usb + 1), addrs[1..], made[1..]);
    assert Created(made) == [h] + rest;
    AppendNumbers(m, m1, RegisterAll(m1, Trunc32(usb + 1), addrs[1..], made[1..]), hs, h, rest, usb);
  }

  /**
   * Start-up numbering: the created devices form the list in token order,
   * the i-th one carries id 5 + i (as a `uint32`), and `defUsbDevice` is the
   * first id not handed out.
   */
  lemma {:induction false} EntryNumbers(tokens: seq<string>, made: seq<Option<Handle>>)
    requires |made| == |tokens|
    requires forall i :: 0 <= i < |tokens| ==> Token(tokens[i])
    requires FreshHandles(map[], made)
    ensures var m := Entry(tokens, made); var ns := Created(made);
      && Linked(m, ns)
      && m.deviceNum == |ns|
      && m.defUsbDevice == Trunc32(BASE_USBDEVICE_NUM + |ns|)
      && Numbered(m.heap, ns, BASE_USBDEVICE_NUM)
  {
    RegisterAllNumbers(NewDevMan(), [], BASE_USBDEVICE_NUM, Addresses(tokens), made);
    assert [] + Created(made) == Created(made);
  }
}
