/** The virtual clock: time that passes only while it is enabled. Instants are nanoseconds on one monotone clock. */
module Clock {

  class ClockState {
    var enabled: bool
    const offset: nat
    var paused: nat
    var elapsed: nat

    ghost predicate Valid(now: nat)
      reads this
    {
      NoUnderflow(State(), now)
    }

    ghost function State(): ClockValue
      reads this
    {
      ClockValue(enabled, offset, paused, elapsed)
    }

    constructor (now: nat)
      ensures Valid(now) && State() == Created(now)
    {
      enabled := false;
      offset := now;
      paused := 0;
      elapsed := 0;
    }

    method GetVirtualClock(now: nat) returns (time: nat)
      requires Valid(now)
      ensures time == Reading(State(), now)
    {
      time := elapsed;
      if enabled {
        time := now - offset - elapsed;
      }
    }

    method Enable(now: nat)
      requires Valid(now)
      modifies this
      ensures Valid(now) && State() == Enabled(old(State()), now)
    {
      elapsed := now - offset - paused;
      enabled := true;
    }

    method Disable(now: nat)
      requires Valid(now)
      modifies this
      ensures Valid(now) && State() == Disabled(old(State()), now)
    {
      paused := now - offset - elapsed;
      enabled := false;
    }
  }

  datatype ClockValue = ClockValue(enabled: bool, offset: nat, paused: nat, elapsed: nat)

  function Created(now: nat): ClockValue {
    ClockValue(false, now, 0, 0)
  }

  /** No subtraction below goes under zero. */
  predicate NoUnderflow(c: ClockValue, now: nat) {
    c.offset <= now && c.paused <= now - c.offset && c.elapsed <= now - c.offset
  }

  function Reading(c: ClockValue, now: nat): nat
    requires NoUnderflow(c, now)
  {
    if c.enabled then now - c.offset - c.elapsed else c.elapsed
  }

  function Enabled(c: ClockValue, now: nat): ClockValue
    requires NoUnderflow(c, now)
  {
    c.(elapsed := now - c.offset - c.paused, enabled := true)
  }

  function Disabled(c: ClockValue, now: nat): ClockValue
    requires NoUnderflow(c, now)
  {
    c.(paused := now - c.offset - c.elapsed, enabled := false)
  }

  /** However often it is switched on, the clock then reads on from `paused`... */
  lemma EnableResumes(c: ClockValue, now: nat, later: nat)
    requires NoUnderflow(c, now)
    ensures var on := Enabled(c, now);
            && NoUnderflow(on, now + later) && on.enabled
            && Reading(on, now + later) == c.paused + later && on.paused == c.paused && on.offset == c.offset
  {
  }

  /** ...and however often it is switched off, `paused` is what a running clock would read, and the rest stays. */
  lemma DisableFreezes(c: ClockValue, now: nat)
    requires NoUnderflow(c, now)
    ensures var off := Disabled(c, now);
            && NoUnderflow(off, now) && !off.enabled
            && off.paused == Reading(c.(enabled := true), now) && off.elapsed == c.elapsed && off.offset == c.offset
  {
  }

  // ---- Histories ----

  /** One call: switch the clock on or off, some time after the call before. */
  datatype Call = Call(on: bool, later: nat)

  /** The time of the last call, when the clock was created at `start`. */
  function TimeAfter(start: nat, calls: seq<Call>): nat {
    if calls == [] then start else TimeAfter(start, calls[..|calls| - 1]) + calls[|calls| - 1].later
  }

  /** The clock after any calls; every subtraction on the way is in range. */
  function After(start: nat, calls: seq<Call>): (c: ClockValue)
    ensures NoUnderflow(c, TimeAfter(start, calls)) && c.offset == start
    ensures c.enabled <==> calls != [] && calls[|calls| - 1].on
  {
    if calls == [] then Created(start)
    else
      var last := |calls| - 1;
      var c := After(start, calls[..last]);
      var now := TimeAfter(start, calls);
      if calls[last].on then Enabled(c, now) else Disabled(c, now)
  }

  /** The calls switch the clock on first, then off, on, off... */
  predicate Alternating(calls: seq<Call>) {
    forall i :: 0 <= i < |calls| ==> calls[i].on == (i % 2 == 0)
  }

  /** The time spent switched on, up to the last call. */
  function OnTime(calls: seq<Call>): nat {
    if |calls| < 2 then 0
    else OnTime(calls[..|calls| - 1]) + if calls[|calls| - 2].on then calls[|calls| - 1].later else 0
  }

  /** The time spent switched off, up to the last call. */
  function OffTime(calls: seq<Call>): nat {
    if calls == [] then 0
    else OffTime(calls[..|calls| - 1]) +
         if |calls| == 1 || !calls[|calls| - 2].on then calls[|calls| - 1].later else 0
  }

  lemma {:induction false} OnAndOff(start: nat, calls: seq<Call>)
    ensures TimeAfter(start, calls) == start + OnTime(calls) + OffTime(calls)
  {
    if calls != [] {
      OnAndOff(start, calls[..|calls| - 1]);
    }
  }

  /** Over alternating calls, while on, `elapsed` is all the time spent off; after each switch off, `paused` is all
      the time spent on, and `elapsed` still what it was before. */
  lemma {:induction false} ClockFields(start: nat, calls: seq<Call>)
    requires Alternating(calls)
    ensures var c := After(start, calls);
            && (c.enabled ==> c.elapsed == OffTime(calls))
            && (!c.enabled ==> c.paused == OnTime(calls) && c.elapsed == OffTime(calls))
  {
    OnAndOff(start, calls);
    if calls != [] {
      var last := |calls| - 1;
      ClockFields(start, calls[..last]);
      OnAndOff(start, calls[..last]);
      assert last > 0 ==> calls[..last][last - 1] == calls[last - 1];
    }
  }

  /** While on, the clock reads the total time spent on; after each switch off that total is the `paused` field. */
  lemma {:induction false} VirtualTime(start: nat, calls: seq<Call>, later: nat)
    requires Alternating(calls)
    ensures var c := After(start, calls); var now := TimeAfter(start, calls) + later;
            if c.enabled then Reading(c, now) == OnTime(calls) + later else c.paused == OnTime(calls)
  {
    ClockFields(start, calls);
    OnAndOff(start, calls);
  }

  /** While off, the clock reads the time spent off before it was last switched on. That is the virtual time exactly
      when the clock had been off as long as on. */
  lemma {:induction false} DisabledReading(start: nat, calls: seq<Call>, later: nat)
    requires Alternating(calls) && !After(start, calls).enabled
    ensures Reading(After(start, calls), TimeAfter(start, calls) + later) == OffTime(calls)
    ensures Reading(After(start, calls), TimeAfter(start, calls) + later) == OnTime(calls) <==>
            OffTime(calls) == OnTime(calls)
  {
    ClockFields(start, calls);
  }

  /** On at once, off five seconds later: the clock reads 0, not 5. */
  lemma DisabledReadingExample()
    ensures var calls := [Call(true, 0), Call(false, 5)];
            Alternating(calls) && OnTime(calls) == 5 && Reading(After(0, calls), 15) == 0
  {
    var calls := [Call(true, 0), Call(false, 5)];
    assert calls[..1] == [Call(true, 0)] && calls[..1][..0] == [];
    assert TimeAfter(0, []) == 0;
    assert TimeAfter(0, calls[..1]) == 0;
    assert After(0, calls[..1]) == Enabled(Created(0), 0);
  }
}
