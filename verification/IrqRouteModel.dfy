/** What the interrupt routing table means: an ordered list of routes beside the set of taken interrupt numbers. */
module IrqRouteModel {
  import opened Results
  import opened BitmapModel

  type u32 = x: int | 0 <= x < 0x1_0000_0000

  const IOAPIC_NUM_PINS: u32 := 24
  const PIC_MASTER_PINS: u32 := 8
  const PIC_SLAVE_PINS: u32 := 8
  const U32_SIZE: nat := 0x1_0000_0000

  datatype Chip = PicMaster | PicSlave | Ioapic
  datatype RouteType = IrqchipRouting | MsiRouting
  /** The entry's union. */
  datatype RouteTarget =
    | ToChip(irqchip: Chip, pin: u32)
    | ToMsi(addressLo: u32, addressHi: u32, data: u32)
  datatype IrqRouteEntry = IrqRouteEntry(gsi: u32, routeType: RouteType, flags: u32, pad: u32, target: RouteTarget)

  datatype MsiVector = MsiVector(msgAddrLo: u32, msgAddrHi: u32, msgData: u32, masked: bool)

  function ChipEntry(gsi: u32, irqchip: Chip, pin: u32): IrqRouteEntry {
    IrqRouteEntry(gsi, IrqchipRouting, 0, 0, ToChip(irqchip, pin))
  }

  function MsiEntry(gsi: u32, v: MsiVector): IrqRouteEntry {
    IrqRouteEntry(gsi, MsiRouting, 0, 0, ToMsi(v.msgAddrLo, v.msgAddrHi, v.msgData))
  }

  // ---- Routes as an ordered multimap ----

  /** In order, the entries for `gsi` (`matching`), or all the others. */
  function Pick(routes: seq<IrqRouteEntry>, gsi: u32, matching: bool): seq<IrqRouteEntry> {
    if routes == [] then []
    else (if (routes[0].gsi == gsi) == matching then [routes[0]] else []) + Pick(routes[1..], gsi, matching)
  }

  function Lookup(routes: seq<IrqRouteEntry>, gsi: u32): seq<IrqRouteEntry> {
    Pick(routes, gsi, true)
  }

  function Without(routes: seq<IrqRouteEntry>, gsi: u32): seq<IrqRouteEntry> {
    Pick(routes, gsi, false)
  }

  lemma {:induction false} PickConcat(a: seq<IrqRouteEntry>, b: seq<IrqRouteEntry>, gsi: u32, matching: bool)
    ensures Pick(a + b, gsi, matching) == Pick(a, gsi, matching) + Pick(b, gsi, matching)
  {
    if a == [] {
      assert a + b == b;
    } else {
      assert (a + b)[0] == a[0] && (a + b)[1..] == a[1..] + b;
      PickConcat(a[1..], b, gsi, matching);
    }
  }

  /** Taking out one entry for `gsi` leaves the others as they were. */
  lemma RemoveOne(routes: seq<IrqRouteEntry>, i: nat, gsi: u32)
    requires i < |routes| && routes[i].gsi == gsi
    ensures Without(routes[..i] + routes[i + 1..], gsi) == Without(routes, gsi)
  {
    assert routes == routes[..i] + ([routes[i]] + routes[i + 1..]);
    PickConcat(routes[..i], [routes[i]] + routes[i + 1..], gsi, false);
    PickConcat([routes[i]], routes[i + 1..], gsi, false);
    PickConcat(routes[..i], routes[i + 1..], gsi, false);
  }

  lemma {:induction false} NothingToRemove(routes: seq<IrqRouteEntry>, gsi: u32)
    requires forall i :: 0 <= i < |routes| ==> routes[i].gsi != gsi
    ensures Without(routes, gsi) == routes && Lookup(routes, gsi) == []
  {
    if routes != [] {
      NothingToRemove(routes[1..], gsi);
    }
  }

  lemma {:induction false} PickMembers(routes: seq<IrqRouteEntry>, gsi: u32, matching: bool, e: IrqRouteEntry)
    ensures e in Pick(routes, gsi, matching) <==> e in routes && (e.gsi == gsi) == matching
  {
    if routes != [] {
      PickMembers(routes[1..], gsi, matching, e);
      assert routes == [routes[0]] + routes[1..];
    }
  }

  /** Removal of one number is invisible to the lookup of another, and leaves nothing of its own. */
  lemma {:induction false} LookupWithout(routes: seq<IrqRouteEntry>, gsi: u32, other: u32)
    ensures Lookup(Without(routes, gsi), other) == if other == gsi then [] else Lookup(routes, other)
  {
    if routes != [] {
      LookupWithout(routes[1..], gsi, other);
      var head := if routes[0].gsi != gsi then [routes[0]] else [];
      PickConcat(head, Without(routes[1..], gsi), other, true);
    }
  }

  // ---- The table ----

  datatype Table = Table(routes: seq<IrqRouteEntry>, live: set<nat>, capacity: nat)

  /** The least number from `k` on that is not taken, or the capacity. */
  function LeastFree(live: set<nat>, k: nat, capacity: nat): (r: nat)
    requires k <= capacity
    ensures k <= r <= capacity && (r < capacity ==> r !in live)
    ensures forall n :: k <= n < r ==> n in live
    decreases capacity - k
  {
    if k == capacity || k !in live then k else LeastFree(live, k + 1, capacity)
  }

  lemma LeastFreeIs(live: set<nat>, capacity: nat, r: nat)
    requires r <= capacity && (r < capacity ==> r !in live) && forall n: nat :: n < r ==> n in live
    ensures LeastFree(live, 0, capacity) == r
  {
    var least := LeastFree(live, 0, capacity);
    assert least < r ==> least in live;
    assert r < least ==> r in live;
  }

  /** The source's `as u32`. */
  function AsU32(n: nat): u32 {
    n % U32_SIZE
  }

  /** The bitmap holds `capacity` numbers; the caller is handed the chosen one cut to 32 bits. */
  function Allocate(t: Table): (Table, Option<u32>) {
    var g := LeastFree(t.live, 0, t.capacity);
    if g == t.capacity then (t, None) else (t.(live := t.live + {g}), Some(AsU32(g)))
  }

  function Release(t: Table, gsi: u32): Table {
    if gsi < t.capacity then t.(live := t.live - {gsi}, routes := Without(t.routes, gsi)) else t
  }

  function AddMsi(t: Table, gsi: u32, v: MsiVector): Table {
    t.(routes := t.routes + [MsiEntry(gsi, v)])
  }

  function UpdateMsi(t: Table, gsi: u32, v: MsiVector): Table {
    AddMsi(t.(routes := Without(t.routes, gsi)), gsi, v)
  }

  /** An allocation takes the least free number, whichever it is, and hands out its low 32 bits. */
  lemma AllocateOutcome(t: Table) returns (least: nat)
    ensures least <= t.capacity && forall n: nat :: n < least ==> n in t.live
    ensures Allocate(t) ==
            if least == t.capacity then (t, None)
            else (Table(t.routes, t.live + {least}, t.capacity), Some(least % 0x1_0000_0000))
    ensures least < t.capacity ==> least !in t.live
  {
    least := LeastFree(t.live, 0, t.capacity);
  }

  /** A release within the capacity frees the number and keeps exactly the routes of others; beyond it does nothing. */
  lemma ReleaseOutcome(t: Table, gsi: u32, e: IrqRouteEntry)
    ensures var t' := Release(t, gsi);
            if gsi >= t.capacity then t' == t
            else
              && t'.live == t.live - {gsi} && t'.capacity == t.capacity
              && (e in t'.routes <==> e in t.routes && e.gsi != gsi)
  {
    PickMembers(t.routes, gsi, false, e);
  }

  function PinRoutes(from: u32, to: u32, irqchip: Chip): (s: seq<IrqRouteEntry>)
    requires from <= to
    ensures |s| == to - from && forall i :: 0 <= i < |s| ==> s[i] == ChipEntry(from + i, irqchip, i)
  {
    seq(to - from, i requires 0 <= i < to - from => ChipEntry(from + i, irqchip, i))
  }

  const BOOT_ROUTES: seq<IrqRouteEntry> :=
    PinRoutes(0, PIC_MASTER_PINS, PicMaster)
    + PinRoutes(PIC_MASTER_PINS, PIC_MASTER_PINS + PIC_SLAVE_PINS, PicSlave)
    + PinRoutes(0, IOAPIC_NUM_PINS, Ioapic)

  /** A number that occurs once is looked up alone. */
  lemma LookupSingle(routes: seq<IrqRouteEntry>, i: nat)
    requires i < |routes|
    requires forall k :: 0 <= k < |routes| && k != i ==> routes[k].gsi != routes[i].gsi
    ensures Lookup(routes, routes[i].gsi) == [routes[i]]
  {
    var gsi, before, after := routes[i].gsi, routes[..i], routes[i + 1..];
    assert routes == before + ([routes[i]] + after);
    NothingToRemove(before, gsi);
    NothingToRemove(after, gsi);
    PickConcat(before, [routes[i]] + after, gsi, true);
    PickConcat([routes[i]], after, gsi, true);
  }

  lemma PinLookup(from: u32, to: u32, irqchip: Chip, gsi: u32)
    requires from <= to
    ensures Lookup(PinRoutes(from, to, irqchip), gsi) ==
            if from <= gsi < to then [ChipEntry(gsi, irqchip, gsi - from)] else []
  {
    var routes := PinRoutes(from, to, irqchip);
    if from <= gsi < to {
      assert routes[gsi - from].gsi == gsi;
      LookupSingle(routes, gsi - from);
    } else {
      NothingToRemove(routes, gsi);
    }
  }

  lemma LookupThree(a: seq<IrqRouteEntry>, b: seq<IrqRouteEntry>, c: seq<IrqRouteEntry>, gsi: u32)
    ensures Lookup(a + b + c, gsi) == Lookup(a, gsi) + Lookup(b, gsi) + Lookup(c, gsi)
  {
    PickConcat(a, b, gsi, true);
    PickConcat(a + b, c, gsi, true);
  }

  /** Numbers 0 to 7 lead to the pins of the master, 8 to 15 to those of the slave, and 0 to 23 to the I/O APIC's. */
  lemma BootLookup(gsi: u32)
    ensures Lookup(BOOT_ROUTES, gsi) ==
            (if gsi < 8 then [IrqRouteEntry(gsi, IrqchipRouting, 0, 0, ToChip(PicMaster, gsi))] else [])
            + (if 8 <= gsi < 16 then [IrqRouteEntry(gsi, IrqchipRouting, 0, 0, ToChip(PicSlave, gsi - 8))] else [])
            + (if gsi < 24 then [IrqRouteEntry(gsi, IrqchipRouting, 0, 0, ToChip(Ioapic, gsi))] else [])
  {
    PinLookup(0, PIC_MASTER_PINS, PicMaster, gsi);
    PinLookup(PIC_MASTER_PINS, PIC_MASTER_PINS + PIC_SLAVE_PINS, PicSlave, gsi);
    PinLookup(0, IOAPIC_NUM_PINS, Ioapic, gsi);
    LookupThree(PinRoutes(0, PIC_MASTER_PINS, PicMaster),
                PinRoutes(PIC_MASTER_PINS, PIC_MASTER_PINS + PIC_SLAVE_PINS, PicSlave),
                PinRoutes(0, IOAPIC_NUM_PINS, Ioapic), gsi);
  }

  ghost function Pins(): set<nat> {
    Interval(0, IOAPIC_NUM_PINS)
  }

  /** The table after its one initialisation. */
  ghost function Booted(t: Table): Table {
    t.(routes := t.routes + BOOT_ROUTES, live := t.live + Pins())
  }
}
