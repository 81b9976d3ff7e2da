/** Whole runs of the event loop: any sequence of update lists, turns of the loop, and descriptors closed outside, also
    in the middle of a list or of a batch. */
module EventRuns {
  import opened Results
  import opened EventModel
  import opened EventLaws
  import opened EventDispatch
  import opened Powers

  datatype Action =
    | Update(ns: seq<Notifier>, faults: seq<Faults>)
    | Turn(fds: seq<(Fd, EventSet)>, h: Callbacks, env: seq<Outside>)
    | Close(fd: Fd)

  ghost function Perform(s: LoopState, a: Action): LoopState {
    match a
    case Update(ns, faults) => UpdateEvents(s, ns, faults).0
    case Turn(fds, h, env) => Iterate(s, fds, h, env)
    case Close(fd) => Shut(s, {fd})
  }

  ghost function Run(s: LoopState, actions: seq<Action>): LoopState
    decreases |actions|
  {
    if actions == [] then s else Run(Perform(s, actions[0]), actions[1..])
  }

  // ---- What was closed, and which adds were given up half way ----

  /** The descriptors closed outside, and those that an add left orphaned. */
  datatype Tally = Tally(closed: set<Fd>, abandoned: set<Fd>) {
    function Plus(t: Tally): Tally {
      Tally(closed + t.closed, abandoned + t.abandoned)
    }
  }

  const NOTHING := Tally({}, {})

  ghost function ApplyTally(s: LoopState, n: Notifier, f: Faults): Tally {
    Tally(f.closed, if OrphaningAdd(Shut(s, f.closed), n, f) then {n.rawFd} else {})
  }

  /** For the first `k` operations of a list. */
  ghost function UpdateTally(s: LoopState, ns: seq<Notifier>, k: nat, faults: seq<Faults>): Tally
    requires k <= |ns|
  {
    if k == 0 then NOTHING
    else
      var (s1, err) := UpdateTo(s, ns, k - 1, faults);
      var before := UpdateTally(s, ns, k - 1, faults);
      if err.Some? then before else before.Plus(ApplyTally(s1, ns[k - 1], FaultsAt(faults, k - 1)))
  }

  ghost function ServeTally(s: LoopState, r: Ready, i: nat, h: Callbacks, o: Outside): Tally {
    var asked := Asked(s, r, i, h);
    Tally(o.closed, {}).Plus(UpdateTally(Shut(s, o.closed), asked, |asked|, o.faults))
  }

  /** For the first `k` entries of a batch. */
  ghost function BatchTally(s: LoopState, batch: seq<Ready>, k: nat, h: Callbacks, env: seq<Outside>): Tally
    requires k <= |batch|
  {
    if k == 0 then NOTHING
    else
      BatchTally(s, batch, k - 1, h, env).Plus(
        ServeTally(Before(s, batch, k - 1, h, env), batch[k - 1], k - 1, h, EnvAt(env, k - 1)))
  }

  ghost function ActionTally(s: LoopState, a: Action): Tally {
    match a
    case Update(ns, faults) => UpdateTally(s, ns, |ns|, faults)
    case Turn(fds, h, env) => var batch := Wait(s.epoll, fds); BatchTally(s, batch, |batch|, h, env)
    case Close(fd) => Tally({fd}, {})
  }

  ghost function RunTally(s: LoopState, actions: seq<Action>): Tally
    decreases |actions|
  {
    if actions == [] then NOTHING
    else ActionTally(s, actions[0]).Plus(RunTally(Perform(s, actions[0]), actions[1..]))
  }

  // ---- The tally accounts for every disagreement ----

  /** Only closed descriptors got lost, only abandoned ones became orphans, and only closed orphans ceased to be. */
  ghost predicate Accounts(s: LoopState, t: Tally, s': LoopState) {
    SetsAccount(Lost(s), Orphans(s), t, Lost(s'), Orphans(s'))
  }

  predicate SetsAccount(lost: set<Fd>, orphans: set<Fd>, t: Tally, lost': set<Fd>, orphans': set<Fd>) {
    lost' <= lost + t.closed && orphans' <= orphans + t.abandoned && orphans - t.closed <= orphans'
  }

  /** What holds after a stretch of a run. */
  ghost predicate Holds(s: LoopState, t: Tally, s': LoopState) {
    Inv(s') && Accounts(s, t, s')
  }

  lemma HoldsOn(s: LoopState, t: Tally, mid: LoopState, t': Tally, s': LoopState)
    requires Holds(s, t, mid) && Holds(mid, t', s')
    ensures Holds(s, t.Plus(t'), s')
  {
    SetsAccountOn(Lost(s), Orphans(s), t, Lost(mid), Orphans(mid), t', Lost(s'), Orphans(s'));
  }

  lemma SetsAccountOn(lost: set<Fd>, orphans: set<Fd>, t: Tally, lost': set<Fd>, orphans': set<Fd>, t': Tally,
                      lost'': set<Fd>, orphans'': set<Fd>)
    requires SetsAccount(lost, orphans, t, lost', orphans') && SetsAccount(lost', orphans', t', lost'', orphans'')
    ensures SetsAccount(lost, orphans, t.Plus(t'), lost'', orphans'')
  {
  }

  lemma NothingHolds(s: LoopState)
    requires Inv(s)
    ensures Holds(s, NOTHING, s)
  {
  }

  lemma CloseHolds(s: LoopState, closed: set<Fd>)
    requires Inv(s)
    ensures Holds(s, Tally(closed, {}), Shut(s, closed))
  {
    ShutHolds(s, closed);
  }

  lemma OperationHolds(s: LoopState, n: Notifier, f: Faults)
    requires Inv(s)
    ensures Holds(s, ApplyTally(s, n, f), Undergo(s, n, f).0)
  {
    var s1 := Shut(s, f.closed);
    ShutHolds(s, f.closed);
    ApplyHolds(s1, n, f);
  }

  lemma {:induction false} ListHolds(s: LoopState, ns: seq<Notifier>, k: nat, faults: seq<Faults>)
    requires Inv(s) && k <= |ns|
    ensures Holds(s, UpdateTally(s, ns, k, faults), UpdateTo(s, ns, k, faults).0)
  {
    if k == 0 {
      NothingHolds(s);
    } else {
      ListHolds(s, ns, k - 1, faults);
      var (s1, err) := UpdateTo(s, ns, k - 1, faults);
      var f := FaultsAt(faults, k - 1);
      if err.None? {
        OperationHolds(s1, ns[k - 1], f);
        HoldsOn(s, UpdateTally(s, ns, k - 1, faults), s1, ApplyTally(s1, ns[k - 1], f), UpdateTo(s, ns, k, faults).0);
      }
    }
  }

  lemma EntryHoldsUp(s: LoopState, r: Ready, i: nat, h: Callbacks, o: Outside)
    requires Inv(s)
    ensures Holds(s, ServeTally(s, r, i, h, o), Served(s, r, i, h, o))
  {
    var asked, s1 := Asked(s, r, i, h), Shut(s, o.closed);
    CloseHolds(s, o.closed);
    ListHolds(s1, asked, |asked|, o.faults);
    HoldsOn(s, Tally(o.closed, {}), s1, UpdateTally(s1, asked, |asked|, o.faults), Served(s, r, i, h, o));
  }

  lemma {:induction false} BatchHoldsUp(s: LoopState, batch: seq<Ready>, k: nat, h: Callbacks, env: seq<Outside>)
    requires Inv(s) && k <= |batch|
    ensures Holds(s, BatchTally(s, batch, k, h, env), Before(s, batch, k, h, env))
  {
    if k == 0 {
      NothingHolds(s);
    } else {
      BatchHoldsUp(s, batch, k - 1, h, env);
      var s1, o := Before(s, batch, k - 1, h, env), EnvAt(env, k - 1);
      EntryHoldsUp(s1, batch[k - 1], k - 1, h, o);
      HoldsOn(s, BatchTally(s, batch, k - 1, h, env), s1, ServeTally(s1, batch[k - 1], k - 1, h, o),
              Served(s1, batch[k - 1], k - 1, h, o));
    }
  }

  /** Freeing garbage touches neither the registry nor the interest set. */
  lemma GcCleanHolds(s: LoopState)
    requires Inv(s)
    ensures Inv(GcClean(s)) && Lost(GcClean(s)) == Lost(s) && Orphans(GcClean(s)) == Orphans(s)
  {
    var s' := GcClean(s);
    assert forall i :: 0 <= i < |s'.gc| ==> s'.gc[i] == s.gc[i + (|s.gc| + 1) / 2];
    forall id: nat | Allocated(s', id) ensures Allocated(s, id) {
      if i :| 0 <= i < |s'.gc| && s'.gc[i].id == id {
        assert s.gc[i + (|s.gc| + 1) / 2].id == id;
      }
    }
  }

  lemma PerformHolds(s: LoopState, a: Action)
    requires Inv(s)
    ensures Holds(s, ActionTally(s, a), Perform(s, a))
  {
    match a
    case Update(ns, faults) => ListHolds(s, ns, |ns|, faults);
    case Turn(fds, h, env) =>
      var batch := Wait(s.epoll, fds);
      BatchHoldsUp(s, batch, |batch|, h, env);
      GcCleanHolds(Before(s, batch, |batch|, h, env));
    case Close(fd) => CloseHolds(s, {fd});
  }

  // ---- All runs ----

  lemma {:induction false} RunHolds(s: LoopState, actions: seq<Action>)
    requires Inv(s)
    ensures var s', t := Run(s, actions), RunTally(s, actions);
            && Inv(s')
            && Lost(s') <= Lost(s) + t.closed
            && Orphans(s) - t.closed <= Orphans(s') <= Orphans(s) + t.abandoned
    decreases |actions|
  {
    if actions != [] {
      var s1 := Perform(s, actions[0]);
      PerformHolds(s, actions[0]);
      RunHolds(s1, actions[1..]);
      HoldsOn(s, ActionTally(s, actions[0]), s1, RunTally(s1, actions[1..]), Run(s, actions));
    }
  }

  /** Registry and interest set over every run from an empty loop: each watched descriptor of the registry is Alive
      with its own mask and box; an Alive one is unwatched only if it was closed outside; a watched stranger is there
      only because its own add was given up. */
  lemma RegistryAgreement(actions: seq<Action>)
    ensures var s, t := Run(EMPTY, actions), RunTally(EMPTY, actions);
            && (forall fd :: fd in s.events && fd in s.epoll ==>
                  s.events[fd].status.Alive? && s.epoll[fd] == Entry(s.events[fd]))
            && (forall fd :: fd in s.events && s.events[fd].status.Alive? && fd !in t.closed ==> fd in s.epoll)
            && (forall fd :: fd in s.epoll && fd !in t.abandoned ==> fd in s.events)
  {
    RunHolds(EMPTY, actions);
    var s := Run(EMPTY, actions);
    assert forall fd :: fd in s.events && s.events[fd].status.Alive? && fd !in s.epoll ==> fd in Lost(s);
    assert forall fd :: fd in s.epoll && fd !in s.events ==> fd in Orphans(s);
  }

  /** With nothing closed outside and no add given up, the two sets are the same. */
  lemma NoOrphansOverRuns(actions: seq<Action>)
    requires RunTally(EMPTY, actions) == NOTHING
    ensures var s := Run(EMPTY, actions); s.epoll.Keys == AliveFds(s)
  {
    RegistryAgreement(actions);
    var s := Run(EMPTY, actions);
    forall fd ensures fd in s.epoll.Keys <==> fd in AliveFds(s) {
    }
  }

  /** An orphan keeps its descriptor out of the registry until it is closed. */
  lemma OrphanStaysOut(s: LoopState, a: Action, fd: Fd)
    requires Inv(s) && fd in Orphans(s) && fd !in ActionTally(s, a).closed
    ensures fd in Orphans(Perform(s, a))
  {
    PerformHolds(s, a);
  }

  /** One operation orphans at most one descriptor, and does so exactly when a caller could have foreseen it. */
  lemma OrphansExactly(s: LoopState, n: Notifier, f: Faults)
    requires Inv(s)
    ensures Orphans(Apply(s, n, f).0) == Orphans(s) <==> !OrphaningAdd(s, n, f)
    ensures OrphaningAdd(s, n, f) ==>
              Apply(s, n, f).1.Some? && Orphans(Apply(s, n, f).0) == Orphans(s) + {n.rawFd} && n.rawFd !in Orphans(s)
  {
    ApplyHolds(s, n, f);
    if OrphaningAdd(s, n, f) {
      AddFreshOutcome(s, n, f);
      assert n.rawFd in Orphans(s) + {n.rawFd};
    }
  }

  // ---- An update list applies a prefix and the first failure ----

  lemma UpdatePrefix(s: LoopState, ns: seq<Notifier>, k: nat, faults: seq<Faults>) returns (i: nat)
    requires k <= |ns|
    ensures i <= k && UpdateTo(s, ns, i, faults).1.None?
    ensures i < k ==>
              UpdateTo(s, ns, k, faults) == Undergo(UpdateTo(s, ns, i, faults).0, ns[i], FaultsAt(faults, i))
    ensures i < k <==> UpdateTo(s, ns, k, faults).1.Some?
  {
    i := 0;
    while i < k && UpdateTo(s, ns, i + 1, faults).1.None?
      invariant i <= k && UpdateTo(s, ns, i, faults).1.None?
    {
      i := i + 1;
    }
    if i < k {
      StaysFailed(s, ns, i + 1, k, faults);
    }
  }

  // ---- Garbage ----

  function Collect(s: LoopState, times: nat): LoopState {
    if times == 0 then s else GcClean(Collect(s, times - 1))
  }

  function Halved(n: nat, times: nat): nat {
    if times == 0 then n else Halved(n, times - 1) / 2
  }

  lemma {:induction false} HalvedFirst(n: nat, times: nat)
    requires times > 0
    ensures Halved(n, times) == Halved(n / 2, times - 1)
  {
    if times > 1 {
      HalvedFirst(n, times - 1);
    }
  }

  lemma {:induction false} HalvedAway(n: nat, times: nat)
    requires n > 0
    ensures Halved(n, times) == 0 <==> times > Log2(n)
  {
    if times > 0 {
      HalvedFirst(n, times);
      if n > 1 {
        HalvedAway(n / 2, times - 1);
      } else {
        HalvedZero(times - 1);
      }
    }
  }

  lemma {:induction false} HalvedZero(times: nat)
    ensures Halved(0, times) == 0
  {
    if times > 0 {
      HalvedZero(times - 1);
    }
  }

  /** Each collection keeps the newest half, rounded down, in order. */
  lemma {:induction false} CollectLeaves(s: LoopState, times: nat)
    ensures var left := Collect(s, times).gc;
            |left| == Halved(|s.gc|, times) <= |s.gc| && left == s.gc[|s.gc| - |left|..]
  {
    if times > 0 {
      CollectLeaves(s, times - 1);
      SuffixOfSuffix(s.gc, |Collect(s, times - 1).gc|, |Collect(s, times).gc|);
    }
  }

  lemma SuffixOfSuffix(q: seq<Box>, m: nat, n: nat)
    requires n <= m <= |q|
    ensures q[|q| - m..][m - n..] == q[|q| - n..]
  {
  }

  /** With nothing removed meanwhile, the garbage is gone after exactly ⌊log2 n⌋ + 1 collections. */
  lemma GarbageLifetime(s: LoopState, times: nat)
    requires |s.gc| > 0
    ensures Collect(s, times).gc == [] <==> times > Log2(|s.gc|)
  {
    CollectLeaves(s, times);
    HalvedAway(|s.gc|, times);
  }
}
