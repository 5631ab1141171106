/**
 * The USB redirection channel's device manager
 * (channels/drdynvc/urbdrc/libusb/libusb_udevman.c): a doubly linked list
 * of device records with a head, a tail, an iterator and a count, plus the
 * sequential `UsbDevice` numbering done when the channel starts.
 *
 * Device records live in a heap addressed by handles, and their `prev` and
 * `next` links are handles. `Linked(m, hs)` says that the pointers of `m`
 * spell the sequence `hs` from head to tail; every operation is specified
 * by what it does to that sequence.
 */
module UsbDevMan {
  import opened Common

  /** The address of a device record. */
  type Handle = nat

  /** The parts of a device record the manager reads or writes. */
  datatype Device = Device(bus: int, dev: int, usbDevice: u32, prev: Option<Handle>, next: Option<Handle>)

  datatype DevMan = DevMan(
    heap: map<Handle, Device>,
    head: Option<Handle>,
    tail: Option<Handle>,
    idev: Option<Handle>,       // the iterator
    defUsbDevice: u32,
    deviceNum: int)

  /** First number handed out as a device's `UsbDevice` id. */
  const BASE_USBDEVICE_NUM: u32 := 5

  /** The neighbours of position i in hs (none past either end). */
  function Before(hs: seq<Handle>, i: nat): Option<Handle> {
    if 0 < i <= |hs| then Some(hs[i - 1]) else None
  }

  function After(hs: seq<Handle>, i: nat): Option<Handle> {
    if i + 1 < |hs| then Some(hs[i + 1]) else None
  }

  /** The iterator positioned at index i of hs (NULL once it is past the end). */
  function At(hs: seq<Handle>, i: nat): Option<Handle> {
    if i < |hs| then Some(hs[i]) else None
  }

  /** Positions i and j of hs hold different records. */
  predicate Apart(hs: seq<Handle>, i: nat, j: nat)
    requires i < |hs| && j < |hs|
  {
    hs[i] != hs[j]
  }

  predicate Distinct(hs: seq<Handle>) {
    forall i, j :: 0 <= i < j < |hs| ==> Apart(hs, i, j)
  }

  function Last(hs: seq<Handle>): Option<Handle> {
    if |hs| == 0 then None else Some(hs[|hs| - 1])
  }

  /** The record at position i links back to position i - 1 and on to position i + 1. */
  predicate Node(heap: map<Handle, Device>, hs: seq<Handle>, i: nat)
    requires i < |hs| && hs[i] in heap
  {
    heap[hs[i]].prev == Before(hs, i) && heap[hs[i]].next == After(hs, i)
  }

  /** The representation invariant: head, tail, links and count spell hs. */
  predicate Linked(m: DevMan, hs: seq<Handle>) {
    && Distinct(hs)
    && (forall i :: 0 <= i < |hs| ==> hs[i] in m.heap)
    && m.head == At(hs, 0)
    && m.tail == Last(hs)
    && (forall i :: 0 <= i < |hs| ==> Node(m.heap, hs, i))
    && m.deviceNum == |hs|
  }

  /** hs without its element at index k. */
  function Remove(hs: seq<Handle>, k: nat): (r: seq<Handle>)
    requires k < |hs|
    ensures |r| == |hs| - 1
    ensures forall i :: 0 <= i < |r| ==> r[i] == (if i < k then hs[i] else hs[i + 1])
  {
    hs[..k] + hs[k + 1..]
  }

  /** The manager as the entry point creates it: no devices, no iterator. */
  function NewDevMan(): (m: DevMan)
    ensures Linked(m, [])
    ensures m.idev.None?
  {
    DevMan(map[], None, None, None, 0, 0)
  }

  // ---------------------------------------------------------------------
  // Iteration
  // ---------------------------------------------------------------------

  function Rewind(m: DevMan): DevMan {
    m.(idev := m.head)
  }

  function HasNext(m: DevMan): bool {
    m.idev.Some?
  }

  /** Returns the device under the iterator and moves the iterator along its `next` link. */
  function GetNext(m: DevMan): (DevMan, Handle)
    requires m.idev.Some? && m.idev.value in m.heap
  {
    var p := m.idev.value;
    (m.(idev := m.heap[p].next), p)
  }

  /** n calls of GetNext from the current iterator, or None when one would read NULL. */
  function Visit(m: DevMan, n: nat): Option<seq<Handle>>
    decreases n
  {
    if n == 0 then Some([])
    else if !HasNext(m) || m.idev.value !in m.heap then None
    else
      var (m1, p) := GetNext(m);
      match Visit(m1, n - 1)
      case None => None
      case Some(ps) => Some([p] + ps)
  }

  /** One step of the iterator from position i moves it to position i + 1. */
  lemma {:induction false} StepInOrder(m: DevMan, hs: seq<Handle>, i: nat)
    requires Linked(m, hs)
    requires i < |hs| && m.idev == At(hs, i)
    ensures m.idev.value in m.heap
    ensures GetNext(m) == (m.(idev := At(hs, i + 1)), hs[i])
  {
    assert Node(m.heap, hs, i);
  }

  /** The iterator walks the list in order: from position i, n steps visit hs[i..i+n]. */
  lemma {:induction false} VisitInOrder(m: DevMan, hs: seq<Handle>, i: nat, n: nat)
    requires Linked(m, hs)
    requires i + n <= |hs|
    requires m.idev == At(hs, i)
    ensures Visit(m, n) == Some(hs[i..i + n])
    decreases n
  {
    if n > 0 {
      StepInOrder(m, hs, i);
      var m1 := m.(idev := At(hs, i + 1));
      VisitInOrder(m1, hs, i + 1, n - 1);
      assert hs[i..i + n] == [hs[i]] + hs[i + 1..i + n];
    } else {
      assert hs[i..i + n] == [];
    }
  }

  /** After rewind the iterator has a next device exactly when the list is not empty, and visits it all. */
  lemma {:induction false} RewindVisitsAll(m: DevMan, hs: seq<Handle>)
    requires Linked(m, hs)
    ensures HasNext(Rewind(m)) <==> |hs| > 0
    ensures Visit(Rewind(m), |hs|) == Some(hs)
  {
    VisitInOrder(Rewind(m), hs, 0, |hs|);
    assert hs[0..|hs|] == hs;
  }

  // ---------------------------------------------------------------------
  // Lookup
  // ---------------------------------------------------------------------

  /** What a scan looks for: a bus/device address, or a `UsbDevice` id. */
  datatype Key = Addr(bus: int, dev: int) | Id(usbDevice: u32)

  predicate Matches(d: Device, key: Key) {
    match key
    case Addr(b, n) => d.bus == b && d.dev == n
    case Id(u) => d.usbDevice == u
  }

  /** Index of the first device of hs that matches key, or |hs| when none does. */
  function IndexOf(heap: map<Handle, Device>, hs: seq<Handle>, key: Key): (k: nat)
    requires forall i :: 0 <= i < |hs| ==> hs[i] in heap
    ensures k <= |hs|
    ensures k < |hs| ==> Matches(heap[hs[k]], key)
    ensures forall j :: 0 <= j < k ==> !Matches(heap[hs[j]], key)
  {
    if |hs| == 0 then 0
    else if Matches(heap[hs[0]], key) then 0
    else 1 + IndexOf(heap, hs[1..], key)
  }

  /**
   * The lookup loop shared by `get_udevice_by_addr` and both passes of
   * `get_udevice_by_UsbDevice`: rewind, then take devices until one matches.
   * The iterator is left just past the device found.
   */
  method Scan(m: DevMan, ghost hs: seq<Handle>, key: Key) returns (r: Option<Handle>, m': DevMan)
    requires Linked(m, hs)
    ensures var k := IndexOf(m.heap, hs, key);
      r == At(hs, k) && m' == m.(idev := At(hs, k + 1))
  {
    ghost var k := IndexOf(m.heap, hs, key);
    m' := Rewind(m);
    ghost var i := 0;
    while HasNext(m')
      invariant i <= k
      invariant m' == m.(idev := At(hs, i))
      decreases |hs| - i
    {
      StepInOrder(m', hs, i);
      var step := GetNext(m');
      var p := step.1;
      m' := step.0;
      if Matches(m.heap[p], key) {
        return Some(p), m';
      }
      i := i + 1;
    }
    r := None;
  }

  /** `get_udevice_by_UsbDevice`: the first device carrying the id, or NULL after a second pass. */
  method GetByUsbDevice(m: DevMan, ghost hs: seq<Handle>, usbDevice: u32) returns (r: Option<Handle>, m': DevMan)
    requires Linked(m, hs)
    ensures r.Some? <==> exists i :: 0 <= i < |hs| && m.heap[hs[i]].usbDevice == usbDevice
    ensures r.Some? ==> r.value in m.heap && m.heap[r.value].usbDevice == usbDevice
    ensures var k := IndexOf(m.heap, hs, Id(usbDevice)); r == At(hs, k)
    ensures m'.heap == m.heap && m'.head == m.head && m'.tail == m.tail
  {
    r, m' := Scan(m, hs, Id(usbDevice));
    if r.None? {
      r, m' := Scan(m', hs, Id(usbDevice));
    }
  }

  // ---------------------------------------------------------------------
  // Register
  // ---------------------------------------------------------------------

  /**
   * The device record that `udev_new_by_addr` (option "new") or
   * `udev_new_by_id` (option "renew") hands back: a fresh record at the
   * address libusb reports, with both links NULL.
   */
  datatype Made = Made(handle: Handle, bus: int, dev: int)

  /** The tail can be dereferenced whenever the list is not empty. */
  predicate WellEnded(m: DevMan) {
    m.head.Some? ==> m.tail.Some? && m.tail.value in m.heap
  }

  predicate KnownOption(option: Option<string>) {
    option == Some("new") || option == Some("renew")
  }

  /**
   * `udevman_register_udevice`. `made` is the outcome of the device creation
   * the option selects (None when it failed). Returns 1 and appends the new
   * device at the tail, or 0 and changes nothing.
   */
  function Register(m: DevMan, usbDevice: u32, option: Option<string>, made: Option<Made>): (r: (int, DevMan))
    requires WellEnded(m)
    ensures r.0 == 1 <==> KnownOption(option) && made.Some?
    ensures r.0 != 1 ==> r.0 == 0 && r.1 == m
    ensures r.0 == 1 ==> (
      var h := made.value.handle;
      && r.1.heap.Keys == m.heap.Keys + {h}
      && r.1.heap[h].usbDevice == usbDevice
      && (r.1.heap[h].bus, r.1.heap[h].dev) == (made.value.bus, made.value.dev)
      && r.1.tail == Some(h)
      && r.1.deviceNum == m.deviceNum + 1)
    ensures WellEnded(r.1)
  {
    if KnownOption(option) && made.Some? then
      var h := made.value.handle;
      var d := Device(made.value.bus, made.value.dev, usbDevice, None, None);
      if m.head.None? then
        (1, m.(heap := m.heap[h := d], head := Some(h), tail := Some(h), deviceNum := m.deviceNum + 1))
      else
        var t := m.tail.value;
        var heap1 := m.heap[t := m.heap[t].(next := Some(h))];
        (1, m.(heap := heap1[h := d.(prev := Some(t))], tail := Some(h), deviceNum := m.deviceNum + 1))
    else
      (0, m)
  }

  /** Every record of h1 is still in h2 with the same `UsbDevice` id. */
  predicate SameIds(h1: map<Handle, Device>, h2: map<Handle, Device>) {
    forall x :: x in h1 ==> x in h2 && h2[x].usbDevice == h1[x].usbDevice
  }

  /** A successful register appends the new device to the list and keeps every other id. */
  lemma {:induction false} RegisterAppends(m: DevMan, hs: seq<Handle>, usbDevice: u32, option: Option<string>, made: Made)
    requires Linked(m, hs)
    requires made.handle !in m.heap
    requires KnownOption(option)
    ensures Linked(Register(m, usbDevice, option, Some(made)).1, hs + [made.handle])
    ensures SameIds(m.heap, Register(m, usbDevice, option, Some(made)).1.heap)
  {
    var m' := Register(m, usbDevice, option, Some(made)).1;
    var hs' := hs + [made.handle];
    var h := made.handle;
    forall i | 0 <= i < |hs'| ensures hs'[i] in m'.heap && Node(m'.heap, hs', i) {
      if i < |hs| {
        assert Node(m.heap, hs, i);
        assert hs'[i] == hs[i] != h;
        assert Before(hs', i) == Before(hs, i);
        if i + 1 < |hs| {
          Differ(hs, i, |hs| - 1);
          assert After(hs', i) == After(hs, i);
        } else {
          assert m.head == Some(hs[0]) && m.tail == Some(hs[i]);
          assert After(hs', i) == Some(h);
        }
      } else {
        assert hs'[i] == h;
        assert Before(hs', i) == Last(hs);
      }
    }
    forall i, j | 0 <= i < j < |hs'| ensures Apart(hs', i, j) {
      if j < |hs| {
        assert Apart(hs, i, j);
      }
    }
  }

  // ---------------------------------------------------------------------
  // Unregister
  // ---------------------------------------------------------------------

  /** The links around h may be dereferenced. */
  predicate Detachable(m: DevMan, h: Handle) {
    && h in m.heap
    && (m.heap[h].prev.Some? ==> m.heap[h].prev.value in m.heap)
    && (m.heap[h].next.Some? ==> m.heap[h].next.value in m.heap)
  }

  /**
   * The unlinking step of `udevman_unregister_udevice`: the predecessor (or
   * head) skips h, the successor (or tail) points back past h, and the
   * count drops by one. The record h itself is left as it is.
   */
  function Unlink(m: DevMan, h: Handle): DevMan
    requires Detachable(m, h)
  {
    var d := m.heap[h];
    var m1 :=
      if d.prev.Some? then m.(heap := m.heap[d.prev.value := m.heap[d.prev.value].(next := d.next)])
      else m.(head := d.next);
    var d1 := m1.heap[h];
    var m2 :=
      if d1.next.Some? then m1.(heap := m1.heap[d1.next.value := m1.heap[d1.next.value].(prev := d1.prev)])
      else m1.(tail := d1.prev);
    m2.(deviceNum := m2.deviceNum - 1)
  }

  /** Freeing the unlinked record. */
  function Release(m: DevMan, h: Handle): DevMan {
    m.(heap := m.heap - {h})
  }

  /** Unlinking and freeing position k of a linked manager, record by record. */
  lemma {:induction false} UnlinkNode(m: DevMan, hs: seq<Handle>, k: nat, x: Handle)
    requires Linked(m, hs)
    requires k < |hs|
    requires x in m.heap && x != hs[k]
    ensures Detachable(m, hs[k])
    ensures var m' := Release(Unlink(m, hs[k]), hs[k]);
      && x in m'.heap
      && m'.heap[x] ==
        if Before(hs, k) == Some(x) then m.heap[x].(next := After(hs, k))
        else if After(hs, k) == Some(x) then m.heap[x].(prev := Before(hs, k))
        else m.heap[x]
  {
    assert Node(m.heap, hs, k);
    if 0 < k && k + 1 < |hs| {
      assert Apart(hs, k - 1, k + 1);
    }
    if 0 < k {
      assert Apart(hs, k - 1, k);
    }
  }

  /** Head, tail and count after unlinking and freeing position k. */
  lemma {:induction false} UnlinkEnds(m: DevMan, hs: seq<Handle>, k: nat)
    requires Linked(m, hs)
    requires k < |hs|
    ensures Detachable(m, hs[k])
    ensures var m' := Release(Unlink(m, hs[k]), hs[k]);
      && m'.head == At(Remove(hs, k), 0)
      && m'.tail == Last(Remove(hs, k))
      && m'.deviceNum == m.deviceNum - 1
      && m'.heap.Keys == m.heap.Keys - {hs[k]}
      && m'.idev == m.idev
  {
    assert Node(m.heap, hs, k);
    if 0 < k {
      assert Apart(hs, k - 1, k);
    }
  }

  /** In a list without repeats a record sits at one position only. */
  lemma {:induction false} DistinctIndex(hs: seq<Handle>, a: nat, b: nat)
    requires Distinct(hs)
    requires a < |hs| && b < |hs| && hs[a] == hs[b]
    ensures a == b
  {
    if a != b {
      Differ(hs, a, b);
    }
  }

  /** Distinct positions of a list without repeats hold different records. */
  lemma {:induction false} Differ(hs: seq<Handle>, a: nat, b: nat)
    requires Distinct(hs)
    requires a < |hs| && b < |hs| && a != b
    ensures hs[a] != hs[b]
  {
    if a < b { assert Apart(hs, a, b); } else { assert Apart(hs, b, a); }
  }

  /** Position i of the shortened list is linked correctly. */
  lemma {:induction false} UnlinkAt(m: DevMan, hs: seq<Handle>, k: nat, i: nat)
    requires Linked(m, hs)
    requires k < |hs| && i < |hs| - 1
    ensures Detachable(m, hs[k])
    ensures var m' := Release(Unlink(m, hs[k]), hs[k]); var hs' := Remove(hs, k);
      hs'[i] in m'.heap && Node(m'.heap, hs', i)
  {
    var hs' := Remove(hs, k);
    var i0 := if i < k then i else i + 1;
    assert hs'[i] == hs[i0];
    assert Node(m.heap, hs, i0);
    Differ(hs, i0, k);
    if i0 + 1 != k && 0 < k { Differ(hs, i0, k - 1); }
    if i0 != k + 1 && k + 1 < |hs| { Differ(hs, i0, k + 1); }
    UnlinkNode(m, hs, k, hs[i0]);
  }

  /** Unlinking and freeing the device at index k removes exactly it and keeps the others in order. */
  lemma {:induction false} UnlinkRemoves(m: DevMan, hs: seq<Handle>, k: nat)
    requires Linked(m, hs)
    requires k < |hs|
    ensures Detachable(m, hs[k])
    ensures Linked(Release(Unlink(m, hs[k]), hs[k]), Remove(hs, k))
  {
    UnlinkEnds(m, hs, k);
    var h := hs[k];
    var m' := Release(Unlink(m, h), h);
    var hs' := Remove(hs, k);
    forall i | 0 <= i < |hs'| ensures hs'[i] in m'.heap && Node(m'.heap, hs', i) {
      UnlinkAt(m, hs, k, i);
    }
    RemoveDistinct(hs, k);
  }

  lemma {:induction false} RemoveDistinct(hs: seq<Handle>, k: nat)
    requires Distinct(hs) && k < |hs|
    ensures Distinct(Remove(hs, k))
  {
    var hs' := Remove(hs, k);
    forall i, j | 0 <= i < j < |hs'| ensures Apart(hs', i, j) {
      var i0 := if i < k then i else i + 1;
      var j0 := if j < k then j else j + 1;
      assert Apart(hs, i0, j0);
    }
  }

  /**
   * `udevman_unregister_udevice`: find the device at the address, walk the
   * list to it, unlink it and free it. Returns 1 when there was one, and 0
   * with the list untouched when there was none.
   */
  method Unregister(m: DevMan, ghost hs: seq<Handle>, bus: int, dev: int) returns (ret: int, m': DevMan)
    requires Linked(m, hs)
    ensures var k := IndexOf(m.heap, hs, Addr(bus, dev));
      && (k == |hs| ==> ret == 0 && m' == m.(idev := None))
      && (k < |hs| ==> (
            && ret == 1
            && Detachable(m, hs[k])
            && m' == Release(Unlink(m, hs[k]), hs[k]).(idev := At(hs, k + 1))
            && Linked(m', Remove(hs, k))))
  {
    ghost var k := IndexOf(m.heap, hs, Addr(bus, dev));
    var target;
    target, m' := Scan(m, hs, Addr(bus, dev));
    m' := Rewind(m');
    ghost var i := 0;
    while HasNext(m')
      invariant i <= k
      invariant m' == m.(idev := At(hs, i))
      decreases |hs| - i
    {
      StepInOrder(m', hs, i);
      var step := GetNext(m');
      var p := step.1;
      m' := step.0;
      if Some(p) == target {
        DistinctIndex(hs, i, k);
        UnlinkRemoves(m, hs, k);
        m' := Unlink(m', p);
        break;
      }
      i := i + 1;
    }
    if target.Some? {
      m' := Release(m', target.value);
      ret := 1;
    } else {
      ret := 0;
    }
  }

  /** Registering a device at an unused address and unregistering that address restores the manager. */
  lemma {:induction false} RegisterThenUnregister(m: DevMan, hs: seq<Handle>, usbDevice: u32, option: Option<string>, made: Made)
    requires Linked(m, hs)
    requires made.handle !in m.heap
    requires KnownOption(option)
    requires IndexOf(m.heap, hs, Addr(made.bus, made.dev)) == |hs|
    ensures var m1 := Register(m, usbDevice, option, Some(made)).1;
      && Linked(m1, hs + [made.handle])
      && IndexOf(m1.heap, hs + [made.handle], Addr(made.bus, made.dev)) == |hs|
      && Detachable(m1, made.handle)
      && Release(Unlink(m1, made.handle), made.handle) == m
  {
    var m1 := Register(m, usbDevice, option, Some(made)).1;
    var h := made.handle;
    var hs1 := hs + [h];
    RegisterAppends(m, hs, usbDevice, option, made);
    UnlinkEnds(m1, hs1, |hs|);
    assert hs1[|hs|] == h;
    assert Remove(hs1, |hs|) == hs;
    forall j | 0 <= j < |hs| ensures !Matches(m1.heap[hs1[j]], Addr(made.bus, made.dev)) {
      assert hs1[j] == hs[j] != h;
    }
    var m2 := Release(Unlink(m1, h), h);
    forall x | x in m.heap ensures x in m2.heap && m2.heap[x] == m.heap[x] {
      UnlinkNode(m1, hs1, |hs|, x);
      if |hs| > 0 && x == hs[|hs| - 1] {
        assert Node(m.heap, hs, |hs| - 1);
      }
    }
    assert m2.heap == m.heap;
  }
}
