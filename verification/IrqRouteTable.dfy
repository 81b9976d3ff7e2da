/** The interrupt routing table: routes in a vector, interrupt numbers in a bitmap of 64-bit words. */
module IrqRouteTables {
  import opened Results
  import opened BitOps
  import opened BitmapModel
  import opened BitmapSearch
  import opened Bitmaps
  import opened IrqRouteModel

  class IrqRouteTable {
    var irqRoutes: seq<IrqRouteEntry>
    const gsiBitmap: Bitmap

    ghost predicate Valid()
      reads this, gsiBitmap.data
    {
      gsiBitmap.Valid() && gsiBitmap.len == 64
    }

    ghost function State(): Table
      requires Valid()
      reads this, gsiBitmap.data
    {
      Table(irqRoutes, gsiBitmap.Bits(), gsiBitmap.Volume())
    }

    /** `extension` is what the hypervisor answers to the capability query; it counts words, not bits. */
    constructor (extension: int)
      requires extension < 0x8000_0000
      ensures Valid() && fresh(gsiBitmap) && fresh(gsiBitmap.data)
      ensures State() == Table([], {}, if extension < 0 then 0 else 64 * extension)
    {
      var gsiCount := if extension < 0 then 0 else extension;
      irqRoutes := [];
      WordStartIsProduct(gsiCount, 64);
      gsiBitmap := new Bitmap(64, gsiCount);
    }

    /** Returns false where the source panics: the last loop's `unwrap` on a bitmap without a single word. */
    method InitIrqRouteTable() returns (completed: bool)
      requires Valid()
      modifies this, gsiBitmap.data
      ensures Valid()
      ensures completed <==> old(State()).capacity > 0
      ensures completed ==> State() == Booted(old(State()))
    {
      ghost var before := State();
      ghost var master := PinRoutes(0, PIC_MASTER_PINS, PicMaster);
      ghost var slave := PinRoutes(PIC_MASTER_PINS, PIC_MASTER_PINS + PIC_SLAVE_PINS, PicSlave);
      ghost var ioapic := PinRoutes(0, IOAPIC_NUM_PINS, Ioapic);
      for i := 0 to PIC_MASTER_PINS
        modifies this
        invariant irqRoutes == before.routes + master[..i]
      {
        irqRoutes := irqRoutes + [ChipEntry(i, PicMaster, i)];
      }
      assert master[..PIC_MASTER_PINS] == master;
      for i := PIC_MASTER_PINS to PIC_MASTER_PINS + PIC_SLAVE_PINS
        modifies this
        invariant irqRoutes == before.routes + master + slave[..i - PIC_MASTER_PINS]
      {
        irqRoutes := irqRoutes + [ChipEntry(i, PicSlave, i - PIC_MASTER_PINS)];
      }
      assert slave[..PIC_SLAVE_PINS] == slave;
      assert gsiBitmap.Volume() > 0 ==> gsiBitmap.Volume() >= 64;
      for i := 0 to IOAPIC_NUM_PINS
        invariant Valid() && gsiBitmap.Volume() == before.capacity
        invariant irqRoutes == before.routes + master + slave + ioapic[..i]
        invariant gsiBitmap.Bits() == before.live + Interval(0, i)
        invariant i > 0 ==> gsiBitmap.Volume() > 0
      {
        irqRoutes := irqRoutes + [ChipEntry(i, Ioapic, i)];
        var outcome := gsiBitmap.Set(i);
        if outcome.Err? {
          return false;
        }
        GrowInterval(i);
      }
      assert ioapic[..IOAPIC_NUM_PINS] == ioapic;
      assert irqRoutes == before.routes + BOOT_ROUTES;
      return true;
    }

    method AddMsiRoute(gsi: u32, v: MsiVector)
      requires Valid()
      modifies this
      ensures Valid() && State() == AddMsi(old(State()), gsi, v)
      ensures |irqRoutes| == |old(irqRoutes)| + 1 && irqRoutes[..|old(irqRoutes)|] == old(irqRoutes)
      ensures var e := irqRoutes[|old(irqRoutes)|];
              && e.gsi == gsi && e.routeType == MsiRouting && e.flags == 0 && e.pad == 0
              && e.target == ToMsi(addressLo := v.msgAddrLo, addressHi := v.msgAddrHi, data := v.msgData)
    {
      irqRoutes := irqRoutes + [MsiEntry(gsi, v)];
    }

    /** The index of the first entry for `gsi`. */
    method FindRoute(gsi: u32) returns (found: Option<nat>)
      ensures found.Some? ==> found.value < |irqRoutes| && irqRoutes[found.value].gsi == gsi
      ensures found.None? ==> forall i :: 0 <= i < |irqRoutes| ==> irqRoutes[i].gsi != gsi
    {
      for i := 0 to |irqRoutes|
        invariant forall k :: 0 <= k < i ==> irqRoutes[k].gsi != gsi
      {
        if irqRoutes[i].gsi == gsi {
          return Some(i);
        }
      }
      return None;
    }

    method RemoveIrqRoute(gsi: u32)
      modifies this
      ensures irqRoutes == Without(old(irqRoutes), gsi)
    {
      var found: Option<nat> := FindRoute(gsi);
      while found.Some?
        invariant Without(irqRoutes, gsi) == Without(old(irqRoutes), gsi)
        invariant found.Some? ==> found.value < |irqRoutes| && irqRoutes[found.value].gsi == gsi
        invariant found.None? ==> forall i :: 0 <= i < |irqRoutes| ==> irqRoutes[i].gsi != gsi
        decreases |irqRoutes|, found.Some?
      {
        RemoveOne(irqRoutes, found.value, gsi);
        irqRoutes := irqRoutes[..found.value] + irqRoutes[found.value + 1..];
        found := FindRoute(gsi);
      }
      NothingToRemove(irqRoutes, gsi);
    }

    method UpdateMsiRoute(gsi: u32, v: MsiVector)
      requires Valid()
      modifies this
      ensures Valid() && State() == UpdateMsi(old(State()), gsi, v)
    {
      RemoveIrqRoute(gsi);
      AddMsiRoute(gsi, v);
    }

    method AllocateGsi() returns (r: Result<u32, BitmapError>)
      requires Valid()
      modifies gsiBitmap.data
      ensures Valid() && State() == Allocate(old(State())).0
      ensures match Allocate(old(State())).1 case Some(g) => r == Ok(g) case None => r.Err?
    {
      var free := gsiBitmap.FindNextZero(0);
      assert free.Ok?;
      FoundIsLeastFree(gsiBitmap.data[..], free.value);
      var outcome := gsiBitmap.Set(free.value);
      if outcome.Err? {
        return Err(outcome.error);
      }
      return Ok(AsU32(free.value));
    }

    method ReleaseGsi(gsi: u32) returns (r: Result<(), BitmapError>)
      requires Valid()
      modifies this, gsiBitmap.data
      ensures Valid() && State() == Release(old(State()), gsi)
      ensures r.Ok? <==> gsi < old(State()).capacity
    {
      var cleared := gsiBitmap.Clear(gsi);
      if cleared.Err? {
        AboveVolume(gsiBitmap.data[..], gsi);
        return Err(cleared.error);
      }
      RemoveIrqRoute(gsi);
      return Ok(());
    }

    method GetIrqRouteEntry(gsi: u32) returns (entries: seq<IrqRouteEntry>)
      ensures entries == Lookup(irqRoutes, gsi)
    {
      entries := [];
      for i := 0 to |irqRoutes|
        invariant entries == Lookup(irqRoutes[..i], gsi)
      {
        if gsi == irqRoutes[i].gsi {
          entries := entries + [irqRoutes[i]];
        }
        assert irqRoutes[..i + 1] == irqRoutes[..i] + [irqRoutes[i]];
        PickConcat(irqRoutes[..i], [irqRoutes[i]], gsi, true);
      }
      assert irqRoutes[..|irqRoutes|] == irqRoutes;
    }
  }

  lemma AboveVolume(words: seq<Word>, n: nat)
    requires Shaped(words, 64) && Vol(words, 64) <= n
    ensures BitSet(words, 64) - {n} == BitSet(words, 64)
  {
  }

  /** From offset 0 nothing can hide, so the bitmap's search is the least free number. */
  lemma FoundIsLeastFree(words: seq<Word>, r: nat)
    requires Shaped(words, 64) && IsFound(words, 64, 0, false, r)
    ensures r == LeastFree(BitSet(words, 64), 0, Vol(words, 64))
  {
    SafeStarts(words, 64, 0, false);
    FoundIsNext(words, 64, 0, false, r);
    LeastFreeIs(BitSet(words, 64), Vol(words, 64), r);
  }
}
