/** What the two helpers leave behind when they fail. */
module EventRecords {
  import opened Results
  import opened EventModel
  import opened EventLaws
  import opened EventDispatch
  import opened EventRuns
  import opened EventRoundTrips

  // ---- Deletions only take away, additions only add ----

  predicate AllDelete(ns: seq<Notifier>) {
    forall i :: 0 <= i < |ns| ==> ns[i].op.Delete?
  }

  /** What is registered after the first `k` operations. */
  function Registry(s: LoopState, ns: seq<Notifier>, k: nat, faults: seq<Faults>): set<Fd>
    requires k <= |ns|
  {
    UpdateTo(s, ns, k, faults).0.events.Keys
  }

  lemma DeletionShrinks(s: LoopState, ns: seq<Notifier>, k: nat, faults: seq<Faults>)
    requires AllDelete(ns) && k < |ns|
    ensures Registry(s, ns, k + 1, faults) <= Registry(s, ns, k, faults)
  {
    DeleteShrinks(UpdateTo(s, ns, k, faults).0, ns[k], FaultsAt(faults, k));
  }

  lemma {:induction false} DeletesShrink(s: LoopState, ns: seq<Notifier>, j: nat, k: nat, faults: seq<Faults>)
    requires AllDelete(ns) && j <= k <= |ns|
    ensures Registry(s, ns, k, faults) <= Registry(s, ns, j, faults)
  {
    if j < k {
      DeletesShrink(s, ns, j, k - 1, faults);
      DeletionShrinks(s, ns, k - 1, faults);
    }
  }

  lemma DeleteShrinks(s: LoopState, n: Notifier, f: Faults)
    requires n.op.Delete?
    ensures Undergo(s, n, f).0.events.Keys <= s.events.Keys
  {
  }

  predicate AllAdd(ns: seq<Notifier>) {
    forall i :: 0 <= i < |ns| ==> IsAdd(ns[i])
  }

  lemma AdditionGrows(s: LoopState, ns: seq<Notifier>, k: nat, faults: seq<Faults>)
    requires AllAdd(ns) && k < |ns|
    ensures Registry(s, ns, k, faults) <= Registry(s, ns, k + 1, faults)
  {
    AddGrows(UpdateTo(s, ns, k, faults).0, ns[k], FaultsAt(faults, k));
  }

  lemma {:induction false} AddsGrow(s: LoopState, ns: seq<Notifier>, j: nat, k: nat, faults: seq<Faults>)
    requires AllAdd(ns) && j <= k <= |ns|
    ensures Registry(s, ns, j, faults) <= Registry(s, ns, k, faults)
  {
    if j < k {
      AddsGrow(s, ns, j, k - 1, faults);
      AdditionGrows(s, ns, k - 1, faults);
    }
  }

  lemma AddGrows(s: LoopState, n: Notifier, f: Faults)
    requires IsAdd(n)
    ensures var (s', err) := Undergo(s, n, f);
            s.events.Keys <= s'.events.Keys && (err.None? ==> n.rawFd in s'.events)
  {
  }

  // ---- Registration ----

  lemma Registered(s: LoopState, ns: seq<Notifier>, j: nat, i: nat, faults: seq<Faults>)
    requires AllAdd(ns) && j < i <= |ns| && UpdateTo(s, ns, i, faults).1.None?
    ensures ns[j].rawFd in Registry(s, ns, j + 1, faults)
  {
    if UpdateTo(s, ns, j + 1, faults).1.Some? {
      StaysFailed(s, ns, j + 1, i, faults);
    }
    AddGrows(UpdateTo(s, ns, j, faults).0, ns[j], FaultsAt(faults, j));
  }

  lemma StaysRegistered(s: LoopState, ns: seq<Notifier>, j: nat, i: nat, faults: seq<Faults>)
    requires AllAdd(ns) && j < i <= |ns| && UpdateTo(s, ns, i, faults).1.None?
    ensures ns[j].rawFd in Registry(s, ns, |ns|, faults)
  {
    Registered(s, ns, j, i, faults);
    AddsGrow(s, ns, j + 1, |ns|, faults);
  }

  lemma FirstFailure(s: LoopState, ns: seq<Notifier>, faults: seq<Faults>) returns (i: nat)
    requires UpdateEvents(s, ns, faults).1.Some?
    ensures i < |ns| && UpdateTo(s, ns, i, faults).1.None?
    ensures Undergo(UpdateTo(s, ns, i, faults).0, ns[i], FaultsAt(faults, i)).1.Some?
  {
    i := UpdatePrefix(s, ns, |ns|, faults);
  }

  /** A registration that fails leaves its successful prefix registered, and records nothing of it. */
  lemma FailedRegister(s: LoopState, ns: seq<Notifier>, record: seq<Fd>, faults: seq<Faults>) returns (i: nat)
    requires AllAdd(ns) && Register(s, ns, record, faults).2.Some?
    ensures i < |ns| && Undergo(UpdateTo(s, ns, i, faults).0, ns[i], FaultsAt(faults, i)).1.Some?
    ensures var (s', record', _) := Register(s, ns, record, faults);
            record' == record && forall j :: 0 <= j < i ==> ns[j].rawFd in s'.events
  {
    i := FirstFailure(s, ns, faults);
    forall j | 0 <= j < i ensures ns[j].rawFd in Registry(s, ns, |ns|, faults) {
      StaysRegistered(s, ns, j, i, faults);
    }
  }

  // ---- Unregistration ----

  lemma {:induction false} DeletionsOf(fds: seq<Fd>)
    ensures |DeleteNotifiers(fds)| == |fds| && AllDelete(DeleteNotifiers(fds))
    ensures fds != [] ==> DeleteNotifiers(fds)[0] == DeleteOf(fds[0])
  {
    if fds != [] {
      DeletionsOf(fds[1..]);
    }
  }

  /** The kernel refuses to drop an Alive descriptor; then, and only then, a deletion does not take effect. */
  ghost predicate Refused(s: LoopState, fd: Fd, f: Faults) {
    fd in s.events && s.events[fd].status.Alive? && Strikes(f.first, true)
  }

  lemma DeletionTakesEffect(s: LoopState, fd: Fd, f: Faults)
    ensures var (s', err) := Undergo(s, DeleteOf(fd), f);
            (fd in s'.events <==> Refused(s, fd, f)) && (Refused(s, fd, f) ==> err.Some?)
  {
  }

  /** After a failure the record is kept as it was, although its first descriptor is gone from the registry unless
      the kernel refused to drop that very one. */
  lemma FailedUnregister(s: LoopState, record: seq<Fd>, faults: seq<Faults>)
    requires record != [] && Unregister(s, record, faults).2.Some?
    ensures var (s', record', _) := Unregister(s, record, faults);
            record' == record && (record[0] in s'.events <==> Refused(s, record[0], FaultsAt(faults, 0)))
  {
    var ns := DeleteNotifiers(record);
    DeletionsOf(record);
    DeletionTakesEffect(s, record[0], FaultsAt(faults, 0));
    var first := UpdateTo(s, ns, 1, faults);
    assert first == Undergo(UpdateTo(s, ns, 0, faults).0, ns[0], FaultsAt(faults, 0));
    if first.1.Some? {
      StaysFailed(s, ns, 1, |ns|, faults);
    } else {
      DeletesShrink(s, ns, 1, |ns|, faults);
      assert record[0] !in Registry(s, ns, 1, faults);
    }
  }

  /** A retry fails at that first descriptor and deletes nothing. */
  lemma RetryFails(s: LoopState, record: seq<Fd>, faults: seq<Faults>)
    requires record != [] && record[0] !in s.events
    ensures Unregister(s, record, faults) ==
            (Shut(s, FaultsAt(faults, 0).closed), record, Some(NoRegisterFd(record[0])))
  {
    var ns := DeleteNotifiers(record);
    DeletionsOf(record);
    assert UpdateTo(s, ns, 1, faults) == Undergo(UpdateTo(s, ns, 0, faults).0, ns[0], FaultsAt(faults, 0));
    StaysFailed(s, ns, 1, |ns|, faults);
  }

  function Retry(s: LoopState, record: seq<Fd>, tries: seq<seq<Faults>>): (LoopState, seq<Fd>)
    decreases |tries|
  {
    if tries == [] then (s, record)
    else
      var (s', record', _) := Unregister(s, record, tries[0]);
      Retry(s', record', tries[1..])
  }

  /** However often it is retried, the rest of the record stays registered. */
  lemma {:induction false} RetriesInVain(s: LoopState, record: seq<Fd>, tries: seq<seq<Faults>>)
    requires record != [] && record[0] !in s.events
    ensures var (s', record') := Retry(s, record, tries); s'.events == s.events && record' == record
    decreases |tries|
  {
    if tries != [] {
      RetryFails(s, record, tries[0]);
      RetriesInVain(Unregister(s, record, tries[0]).0, record, tries[1..]);
    }
  }
}
