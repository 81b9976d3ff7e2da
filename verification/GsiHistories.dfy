/** Safety of interrupt numbers over every history of one table after its initialisation. */
module GsiHistories {
  import opened Results
  import opened BitmapModel
  import opened IrqRouteModel

  datatype Op =
    | AllocateGsi
    | ReleaseGsi(gsi: u32)
    | AddMsiRoute(gsi: u32, v: MsiVector)
    | UpdateMsiRoute(gsi: u32, v: MsiVector)

  /** The table, the numbers clients hold (one for each allocation not yet released) and the boot pins released so
      far. */
  datatype World = World(table: Table, held: multiset<nat>, freedPins: set<nat>)

  ghost function Start(extension: nat): World {
    World(Booted(Table([], {}, 64 * extension)), multiset{}, {})
  }

  function Step(w: World, op: Op): World {
    match op
    case AllocateGsi =>
      var (t, g) := Allocate(w.table);
      if g.Some? then World(t, w.held + multiset{g.value}, w.freedPins) else w.(table := t)
    case ReleaseGsi(gsi) =>
      if gsi < w.table.capacity
      then World(Release(w.table, gsi), w.held - multiset{gsi},
                 if gsi < IOAPIC_NUM_PINS then w.freedPins + {gsi} else w.freedPins)
      else w.(table := Release(w.table, gsi))
    case AddMsiRoute(gsi, v) => w.(table := AddMsi(w.table, gsi, v))
    case UpdateMsiRoute(gsi, v) => w.(table := UpdateMsi(w.table, gsi, v))
  }

  function Run(w: World, ops: seq<Op>): World
    decreases |ops|
  {
    if ops == [] then w else Run(Step(w, ops[0]), ops[1..])
  }

  // ---- Who holds which number ----

  ghost predicate Distinct(held: multiset<nat>) {
    forall g :: g in held ==> held[g] == 1
  }

  /** Taken numbers are the held ones and the boot pins not yet released, and these do not overlap. */
  ghost predicate Accounted(w: World) {
    && Distinct(w.held)
    && w.table.live <= Interval(0, w.table.capacity)
    && (forall g :: g in w.table.live <==> g in w.held || g in Pins() - w.freedPins)
    && (forall g :: g in w.held ==> g !in Pins() - w.freedPins)
  }

  lemma AllocateAccounted(w: World)
    requires Accounted(w) && w.table.capacity <= U32_SIZE
    ensures Accounted(Step(w, AllocateGsi))
  {
    var g := LeastFree(w.table.live, 0, w.table.capacity);
    if g < w.table.capacity {
      assert AsU32(g) == g && Within(g, 0, w.table.capacity);
      assert g !in w.held && g !in Pins() - w.freedPins;
    }
  }

  lemma ReleaseAccounted(w: World, gsi: u32)
    requires Accounted(w)
    ensures Accounted(Step(w, ReleaseGsi(gsi)))
  {
    assert gsi in Pins() <==> Within(gsi, 0, IOAPIC_NUM_PINS);
  }

  lemma StepAccounted(w: World, op: Op)
    requires Accounted(w) && w.table.capacity <= U32_SIZE
    ensures Accounted(Step(w, op)) && Step(w, op).table.capacity == w.table.capacity
  {
    match op
    case AllocateGsi => AllocateAccounted(w);
    case ReleaseGsi(gsi) => ReleaseAccounted(w, gsi);
    case AddMsiRoute(_, _) =>
    case UpdateMsiRoute(_, _) =>
  }

  lemma {:induction false} RunAccounted(w: World, ops: seq<Op>)
    requires Accounted(w) && w.table.capacity <= U32_SIZE
    ensures Accounted(Run(w, ops)) && Run(w, ops).table.capacity == w.table.capacity
    decreases |ops|
  {
    if ops != [] {
      StepAccounted(w, ops[0]);
      RunAccounted(Step(w, ops[0]), ops[1..]);
    }
  }

  lemma StartAccounted(extension: nat)
    requires extension > 0
    ensures Accounted(Start(extension))
  {
    assert forall n: nat :: Within(n, 0, IOAPIC_NUM_PINS) ==> Within(n, 0, 64 * extension);
  }

  /** No two clients ever hold the same number, and a number in use is never handed out. */
  lemma HeldNumbersDistinct(extension: nat, ops: seq<Op>)
    requires 0 < extension && 64 * extension <= U32_SIZE
    ensures Accounted(Run(Start(extension), ops))
  {
    StartAccounted(extension);
    RunAccounted(Start(extension), ops);
  }

  /** An allocation hands out the least free number, never a boot pin still in place, and it fails exactly when
      every number is taken, changing nothing. */
  ghost predicate AllocatesLeastFree(w: World) {
    var (t, g) := Allocate(w.table);
    && (g.None? <==> w.table.live == Interval(0, w.table.capacity))
    && (g.None? ==> t == w.table)
    && (g.Some? ==>
         && g.value !in w.table.live && g.value !in w.held
         && (forall n: nat :: n < g.value ==> n in w.table.live)
         && (g.value < IOAPIC_NUM_PINS ==> g.value in w.freedPins)
         && t == w.table.(live := w.table.live + {g.value}))
  }

  lemma AccountedAllocation(w: World)
    requires Accounted(w) && w.table.capacity <= U32_SIZE
    ensures AllocatesLeastFree(w)
  {
    var free := LeastFree(w.table.live, 0, w.table.capacity);
    if free == w.table.capacity {
      assert forall n: nat :: Within(n, 0, free) ==> n in w.table.live;
    } else {
      assert AsU32(free) == free;
      assert Within(free, 0, w.table.capacity);
      assert free < IOAPIC_NUM_PINS ==> Within(free, 0, IOAPIC_NUM_PINS);
    }
  }

  lemma AllocationIsLeastFree(extension: nat, ops: seq<Op>)
    requires 0 < extension && 64 * extension <= U32_SIZE
    ensures AllocatesLeastFree(Run(Start(extension), ops))
  {
    StartAccounted(extension);
    RunAccounted(Start(extension), ops);
    AccountedAllocation(Run(Start(extension), ops));
  }

  /** After a release the next allocation is the released number or the one that was next, whichever is less. */
  lemma ReleaseThenAllocate(t: Table, gsi: u32)
    requires gsi < t.capacity <= U32_SIZE
    ensures var least := LeastFree(t.live, 0, t.capacity);
            Allocate(Release(t, gsi)).1 == Some(if gsi < least then gsi else least)
  {
    var least := LeastFree(t.live, 0, t.capacity);
    LeastFreeIs(t.live - {gsi}, t.capacity, if gsi < least then gsi else least);
  }

  // ---- The bound on the capacity is exactly what distinctness needs ----

  function Allocations(n: nat): seq<Op> {
    if n == 0 then [] else Allocations(n - 1) + [AllocateGsi]
  }

  lemma {:induction false} RunAppend(w: World, ops: seq<Op>, op: Op)
    ensures Run(w, ops + [op]) == Step(Run(w, ops), op)
    decreases |ops|
  {
    if ops == [] {
      assert ops + [op] == [op];
      assert Run(Step(w, op), []) == Step(w, op);
    } else {
      assert (ops + [op])[1..] == ops[1..] + [op];
      RunAppend(Step(w, ops[0]), ops[1..], op);
    }
  }

  lemma AllocateNext(w: World, next: nat)
    requires w.table.live == Interval(0, next) && next < w.table.capacity
    ensures var after := Step(w, AllocateGsi);
            && after.table.live == Interval(0, next + 1) && after.table.capacity == w.table.capacity
            && after.held == w.held + multiset{AsU32(next)}
  {
    assert forall k: nat :: k < next ==> Within(k, 0, next);
    LeastFreeIs(w.table.live, w.table.capacity, next);
    GrowInterval(next);
  }

  /** `n` allocations in a row take the next `n` numbers. */
  lemma {:induction false} AllocateInARow(w: World, n: nat)
    requires w.table.live == Interval(0, IOAPIC_NUM_PINS) && IOAPIC_NUM_PINS + n <= w.table.capacity
    ensures var after := Run(w, Allocations(n));
            after.table.live == Interval(0, IOAPIC_NUM_PINS + n) && after.table.capacity == w.table.capacity
  {
    if n > 0 {
      AllocateInARow(w, n - 1);
      RunAppend(w, Allocations(n - 1), AllocateGsi);
      AllocateNext(Run(w, Allocations(n - 1)), IOAPIC_NUM_PINS + n - 1);
    }
  }

  lemma HeldInARow(w: World, n: nat)
    requires w.table.live == Interval(0, IOAPIC_NUM_PINS) && IOAPIC_NUM_PINS + n < w.table.capacity
    ensures Run(w, Allocations(n + 1)).held == Run(w, Allocations(n)).held + multiset{AsU32(IOAPIC_NUM_PINS + n)}
  {
    AllocateInARow(w, n);
    RunAppend(w, Allocations(n), AllocateGsi);
    AllocateNext(Run(w, Allocations(n)), IOAPIC_NUM_PINS + n);
  }

  /** How often the `n` numbers after the pins are cut to the first of them. */
  function TimesHandedOut(n: nat): nat {
    if n == 0 then 0
    else TimesHandedOut(n - 1) + if AsU32(IOAPIC_NUM_PINS + n - 1) == IOAPIC_NUM_PINS then 1 else 0
  }

  lemma {:induction false} HandedOut(w: World, n: nat)
    requires w.table.live == Interval(0, IOAPIC_NUM_PINS) && IOAPIC_NUM_PINS + n <= w.table.capacity
    ensures Run(w, Allocations(n)).held[IOAPIC_NUM_PINS] >= TimesHandedOut(n)
  {
    if n > 0 {
      HandedOut(w, n - 1);
      HeldInARow(w, n - 1);
    }
  }

  lemma {:induction false} TimesHandedOutGrows(m: nat, n: nat)
    requires m <= n
    ensures TimesHandedOut(m) <= TimesHandedOut(n)
    decreases n - m
  {
    if m < n {
      TimesHandedOutGrows(m, n - 1);
    }
  }

  lemma SameLowBits()
    ensures AsU32(IOAPIC_NUM_PINS) == IOAPIC_NUM_PINS && AsU32(IOAPIC_NUM_PINS + U32_SIZE) == IOAPIC_NUM_PINS
  {
  }

  /** The first number is handed out at once, and again after 2^32 further allocations. */
  lemma HandedOutTwice(n: nat)
    requires n > U32_SIZE
    ensures TimesHandedOut(n) >= 2
  {
    var one, again := 1, U32_SIZE + 1;
    SameLowBits();
    assert TimesHandedOut(one) == 1;
    TimesHandedOutGrows(one, again - 1);
    assert TimesHandedOut(again) == TimesHandedOut(again - 1) + 1;
    TimesHandedOutGrows(again, n);
  }

  /** A bitmap beyond 32 bits: one number is handed out twice. */
  lemma NotDistinct(extension: nat)
    requires 64 * extension > U32_SIZE
    ensures !Distinct(Run(Start(extension), Allocations(64 * extension - IOAPIC_NUM_PINS)).held)
  {
    HandedOut(Start(extension), 64 * extension - IOAPIC_NUM_PINS);
    HandedOutTwice(64 * extension - IOAPIC_NUM_PINS);
  }

  /** Clients can be handed one number twice exactly when the bitmap is larger than 32 bits can number. */
  lemma DistinctExactly(extension: nat)
    requires extension > 0
    ensures (forall ops :: Distinct(Run(Start(extension), ops).held)) <==> 64 * extension <= U32_SIZE
  {
    if 64 * extension <= U32_SIZE {
      forall ops ensures Distinct(Run(Start(extension), ops).held) {
        HeldNumbersDistinct(extension, ops);
      }
    } else {
      NotDistinct(extension);
    }
  }

  // ---- Routes ----

  ghost predicate RoutesTaken(t: Table) {
    forall e :: e in t.routes ==> e.gsi in t.live
  }

  /** Clients only point routes at numbers that are taken at that moment. */
  ghost predicate Disciplined(w: World, ops: seq<Op>)
    decreases |ops|
  {
    ops != [] ==>
      && ((ops[0].AddMsiRoute? || ops[0].UpdateMsiRoute?) ==> ops[0].gsi in w.table.live)
      && Disciplined(Step(w, ops[0]), ops[1..])
  }

  lemma StepRoutesTaken(w: World, op: Op)
    requires RoutesTaken(w.table)
    requires (op.AddMsiRoute? || op.UpdateMsiRoute?) ==> op.gsi in w.table.live
    ensures RoutesTaken(Step(w, op).table)
  {
    if op.ReleaseGsi? || op.UpdateMsiRoute? {
      forall e ensures e in Without(w.table.routes, op.gsi) <==> e in w.table.routes && e.gsi != op.gsi {
        PickMembers(w.table.routes, op.gsi, false, e);
      }
    }
  }

  lemma {:induction false} RoutesKept(w: World, ops: seq<Op>)
    requires RoutesTaken(w.table) && Disciplined(w, ops)
    ensures RoutesTaken(Run(w, ops).table)
    decreases |ops|
  {
    if ops != [] {
      StepRoutesTaken(w, ops[0]);
      RoutesKept(Step(w, ops[0]), ops[1..]);
    }
  }

  lemma StartRoutesTaken(extension: nat)
    ensures RoutesTaken(Start(extension).table)
  {
    forall e | e in BOOT_ROUTES ensures e.gsi in Pins() {
      assert Within(e.gsi, 0, IOAPIC_NUM_PINS);
    }
  }

  /** No route outlives the number it is for, in any history of a table after its initialisation. */
  lemma RoutesStayTaken(extension: nat, ops: seq<Op>)
    requires Disciplined(Start(extension), ops)
    ensures RoutesTaken(Run(Start(extension), ops).table)
  {
    StartRoutesTaken(extension);
    RoutesKept(Start(extension), ops);
  }

  /** Updating a route leaves exactly that one entry for its number, and every other number's entries in order. */
  lemma UpdateThenLookup(t: Table, gsi: u32, v: MsiVector, other: u32)
    ensures Lookup(UpdateMsi(t, gsi, v).routes, other) ==
            if other == gsi
            then [IrqRouteEntry(gsi, MsiRouting, 0, 0,
                                ToMsi(addressLo := v.msgAddrLo, addressHi := v.msgAddrHi, data := v.msgData))]
            else Lookup(t.routes, other)
  {
    LookupWithout(t.routes, gsi, other);
    PickConcat(Without(t.routes, gsi), [MsiEntry(gsi, v)], other, true);
  }

  /** Releasing a number drops its entries and no others. */
  lemma ReleaseThenLookup(t: Table, gsi: u32, other: u32)
    requires gsi < t.capacity
    ensures Lookup(Release(t, gsi).routes, other) == if other == gsi then [] else Lookup(t.routes, other)
  {
    LookupWithout(t.routes, gsi, other);
  }
}
