/** The registry and the kernel's interest set stay in step, whatever fails on the way. */
module EventLaws {
  import opened Results
  import opened EventModel

  /** A fresh add that the kernel accepts and the loop then gives up: the displaced descriptor is missing from the
      registry, or the kernel does not watch it, or the call that should drop it fails. */
  ghost predicate GivenUp(s: LoopState, n: Notifier, f: Faults) {
    && n.rawFd !in s.events && n.rawFd !in s.epoll && f.first.None?
    && n.parkedFd.Some?
    && (n.parkedFd.value !in s.events || n.parkedFd.value !in s.epoll || Strikes(f.second, true))
  }

  ghost predicate OrphaningAdd(s: LoopState, n: Notifier, f: Faults) {
    (n.op.AddExclusion? || n.op.AddShared?) && GivenUp(s, n, f)
  }

  /** The invariant holds again, and no box was freed. */
  ghost predicate Follows(s: LoopState, s': LoopState) {
    && Inv(s')
    && (forall id: nat :: id < s.nextId ==> (Allocated(s', id) <==> Allocated(s, id)))
    && s.nextId <= s'.nextId
  }

  lemma FollowsOn(s: LoopState, mid: LoopState, s': LoopState)
    requires Follows(s, mid) && Follows(mid, s')
    ensures Follows(s, s')
  {
  }

  ghost predicate StepHolds(s: LoopState, s': LoopState) {
    Follows(s, s') && Lost(s') <= Lost(s)
  }

  lemma StepsHold(s: LoopState, mid: LoopState, s': LoopState)
    requires StepHolds(s, mid) && StepHolds(mid, s')
    ensures StepHolds(s, s')
  {
    FollowsOn(s, mid, s');
  }

  // ---- The three moves every operation is made of ----

  /** Rewrite the box of `fd`, and the kernel's entry for `fd` with it. */
  ghost predicate CanReplace(s: LoopState, fd: Fd, b: Box, epoll: map<Fd, KernelEntry>) {
    && fd in s.events && b.id == s.events[fd].id && b.rawFd == fd && !b.status.Removed?
    && SameElsewhere(epoll, s.epoll, fd)
    && (fd in epoll ==> b.status.Alive? && epoll[fd] == Entry(b))
    && (b.status.Alive? && fd !in epoll ==> s.events[fd].status.Alive? && fd !in s.epoll)
  }

  predicate SameElsewhere(m: map<Fd, KernelEntry>, m': map<Fd, KernelEntry>, fd: Fd) {
    && (forall other :: other in m && other != fd ==> other in m' && m'[other] == m[other])
    && (forall other :: other in m' && other != fd ==> other in m)
  }

  lemma ReplaceAllocated(s: LoopState, s': LoopState, fd: Fd, id: nat)
    requires s'.gc == s.gc && fd in s.events && fd in s'.events && s'.events[fd].id == s.events[fd].id
    requires s'.events == s.events[fd := s'.events[fd]]
    ensures Allocated(s', id) <==> Allocated(s, id)
  {
    if other :| other in s.events && s.events[other].id == id {
      assert s'.events[other].id == id;
    }
  }

  lemma ReplaceAgrees(s: LoopState, fd: Fd, b: Box, epoll: map<Fd, KernelEntry>)
    requires Agree(s) && CanReplace(s, fd, b, epoll)
    ensures Agree(s.(events := s.events[fd := b], epoll := epoll))
  {
  }

  lemma ReplaceWatches(s: LoopState, fd: Fd, b: Box, epoll: map<Fd, KernelEntry>)
    requires CanReplace(s, fd, b, epoll)
    ensures var s' := s.(events := s.events[fd := b], epoll := epoll);
            Lost(s') <= Lost(s) && Orphans(s') == Orphans(s)
  {
    forall other | other != fd ensures other in s.epoll <==> other in epoll {
    }
  }

  lemma ReplaceHolds(s: LoopState, fd: Fd, b: Box, epoll: map<Fd, KernelEntry>)
    requires Inv(s) && CanReplace(s, fd, b, epoll)
    ensures var s' := s.(events := s.events[fd := b], epoll := epoll);
            StepHolds(s, s') && Orphans(s') == Orphans(s)
  {
    var s' := s.(events := s.events[fd := b], epoll := epoll);
    ReplaceAgrees(s, fd, b, epoll);
    ReplaceWatches(s, fd, b, epoll);
    forall id: nat ensures Allocated(s', id) <==> Allocated(s, id) {
      ReplaceAllocated(s, s', fd, id);
    }
  }

  function Inserted(s: LoopState, b: Box): LoopState {
    s.(events := s.events[b.rawFd := b], epoll := s.epoll[b.rawFd := Entry(b)], nextId := s.nextId + 1)
  }

  function ParkedAt(s: LoopState, p: Fd): LoopState
    requires p in s.events
  {
    s.(events := s.events[p := s.events[p].(status := Parked)], epoll := s.epoll - {p})
  }

  function Retired(s: LoopState, fd: Fd): LoopState
    requires fd in s.events
  {
    Retire(s.(epoll := s.epoll - {fd}), fd)
  }

  /** A fresh box enters the registry. */
  lemma InsertHolds(s: LoopState, b: Box)
    requires Inv(s) && b.id == s.nextId && b.status.Alive? && b.rawFd !in s.events && b.rawFd !in s.epoll
    ensures StepHolds(s, Inserted(s, b)) && Orphans(Inserted(s, b)) == Orphans(s)
  {
    var s' := Inserted(s, b);
    assert forall other :: other in s.events ==> s'.events[other] == s.events[other];
    forall id: nat | id != b.id ensures Allocated(s', id) <==> Allocated(s, id) {
      if other :| other in s.events && s.events[other].id == id {
        assert s'.events[other].id == id;
      }
    }
    assert !Allocated(s, b.id);
  }

  /** A fresh box is watched by the kernel and freed. */
  lemma AbandonHolds(s: LoopState, b: Box)
    requires Inv(s) && b.id == s.nextId && b.rawFd !in s.events && b.rawFd !in s.epoll
    ensures var s' := s.(epoll := s.epoll[b.rawFd := Entry(b)], nextId := s.nextId + 1);
            StepHolds(s, s') && Orphans(s') == Orphans(s) + {b.rawFd}
  {
    assert !Allocated(s, b.id);
  }

  /** A box leaves the registry for the garbage list. */
  lemma RetireHolds(s: LoopState, fd: Fd)
    requires Inv(s) && fd in s.events
    ensures StepHolds(s, Retired(s, fd)) && Orphans(Retired(s, fd)) == Orphans(s)
  {
    var s' := Retired(s, fd);
    assert s'.gc[|s.gc|].id == s.events[fd].id;
    assert forall i :: 0 <= i < |s.gc| ==> s'.gc[i] == s.gc[i];
    assert forall other :: other in s'.events ==> other in s.events && s'.events[other] == s.events[other];
    forall id: nat ensures Allocated(s', id) <==> Allocated(s, id) {
      if other :| other in s.events && s.events[other].id == id {
        assert other == fd || s'.events[other].id == id;
      }
    }
  }

  /** Descriptors leave the interest set. */
  lemma ShutHolds(s: LoopState, closed: set<Fd>)
    requires Inv(s)
    ensures var s' := Shut(s, closed);
            Follows(s, s') && Lost(s') <= Lost(s) + closed && Orphans(s') == Orphans(s) - closed
  {
    var s' := Shut(s, closed);
    assert forall id: nat :: Allocated(s', id) <==> Allocated(s, id);
  }

  // ---- The operations ----

  lemma HandlersHold(s: LoopState, fd: Fd, handlers: seq<HandlerId>)
    requires Inv(s) && fd in s.events
    ensures StepHolds(s, WithHandlers(s, fd, handlers)) && Orphans(WithHandlers(s, fd, handlers)) == Orphans(s)
  {
    ReplaceHolds(s, fd, s.events[fd].(handlers := handlers), s.epoll);
  }

  lemma RemaskHolds(s: LoopState, fd: Fd, event: EventSet, fault: Fault)
    requires Inv(s) && fd in s.events
    ensures StepHolds(s, Remask(s, fd, event, fault).0) && Orphans(Remask(s, fd, event, fault).0) == Orphans(s)
  {
    var (s', err) := Remask(s, fd, event, fault);
    if err.None? && s.events[fd].event != event {
      ReplaceHolds(s, fd, s'.events[fd], s'.epoll);
    }
  }

  lemma MergeHolds(s: LoopState, n: Notifier, f: Faults)
    requires Inv(s) && n.rawFd in s.events
    ensures StepHolds(s, Merge(s, n, f).0) && Orphans(Merge(s, n, f).0) == Orphans(s)
  {
    var (s1, err) := Remask(s, n.rawFd, n.event, f.first);
    RemaskHolds(s, n.rawFd, n.event, f.first);
    if err.None? {
      HandlersHold(s1, n.rawFd, s1.events[n.rawFd].handlers + n.handlers);
      StepsHold(s, s1, Merge(s, n, f).0);
    }
  }

  lemma ModifyHolds(s: LoopState, n: Notifier)
    requires Inv(s)
    ensures StepHolds(s, ModifyEvent(s, n).0) && Orphans(ModifyEvent(s, n).0) == Orphans(s)
  {
    if n.rawFd in s.events {
      HandlersHold(s, n.rawFd, n.handlers);
    }
  }

  lemma UnwatchHolds(s: LoopState, fd: Fd, fault: Fault)
    requires Inv(s) && fd in s.events
    ensures StepHolds(s, Unwatch(s, fd, fault).0) && Orphans(Unwatch(s, fd, fault).0) == Orphans(s)
  {
    var (s', err) := Unwatch(s, fd, fault);
    if err.None? {
      ReplaceHolds(s, fd, s'.events[fd], s'.epoll);
    }
  }

  lemma RewatchHolds(s: LoopState, fd: Fd, fault: Fault)
    requires Inv(s) && fd in s.events
    ensures StepHolds(s, Rewatch(s, fd, fault).0) && Orphans(Rewatch(s, fd, fault).0) == Orphans(s)
  {
    var (s', err) := Rewatch(s, fd, fault);
    if err.None? {
      ReplaceHolds(s, fd, s'.events[fd], s'.epoll);
    }
  }

  lemma ParkHolds(s: LoopState, n: Notifier, f: Faults)
    requires Inv(s)
    ensures StepHolds(s, ParkEvent(s, n, f).0) && Orphans(ParkEvent(s, n, f).0) == Orphans(s)
  {
    if n.rawFd in s.events {
      UnwatchHolds(s, n.rawFd, f.first);
    }
  }

  lemma ResumeHolds(s: LoopState, n: Notifier, f: Faults)
    requires Inv(s)
    ensures StepHolds(s, ResumeEvent(s, n, f).0) && Orphans(ResumeEvent(s, n, f).0) == Orphans(s)
  {
    if n.rawFd in s.events {
      RewatchHolds(s, n.rawFd, f.first);
    }
  }

  lemma UnparkHolds(s: LoopState, parkedFd: Option<Fd>, f: Faults)
    requires Inv(s)
    ensures StepHolds(s, Unpark(s, parkedFd, f).0) && Orphans(Unpark(s, parkedFd, f).0) == Orphans(s)
  {
    if parkedFd.Some? && parkedFd.value in s.events {
      RewatchHolds(s, parkedFd.value, f.second);
    }
  }

  /** The two outcomes of deleting a registered descriptor. */
  lemma RmOutcome(s: LoopState, n: Notifier, f: Faults)
    requires Agree(s) && n.rawFd in s.events
    ensures var b := s.events[n.rawFd];
            if b.status.Alive? && Strikes(f.first, true) then RmEvent(s, n, f) == (s, Some(BadSyscall(f.first.value)))
            else RmEvent(s, n, f) == Unpark(Retired(s, n.rawFd), b.parkedFd, f)
  {
    assert n.rawFd !in s.epoll ==> s.epoll - {n.rawFd} == s.epoll;
  }

  lemma RmHolds(s: LoopState, n: Notifier, f: Faults)
    requires Inv(s)
    ensures StepHolds(s, RmEvent(s, n, f).0) && Orphans(RmEvent(s, n, f).0) == Orphans(s)
  {
    if n.rawFd in s.events {
      RmOutcome(s, n, f);
      var b := s.events[n.rawFd];
      if !(b.status.Alive? && Strikes(f.first, true)) {
        var s1 := Retired(s, n.rawFd);
        RetireHolds(s, n.rawFd);
        UnparkHolds(s1, b.parkedFd, f);
        StepsHold(s, s1, Unpark(s1, b.parkedFd, f).0);
      }
    }
  }

  /** A watched descriptor is watched no longer, and marked so. */
  lemma ParkedHolds(s: LoopState, p: Fd)
    requires Inv(s) && p in s.events && p in s.epoll
    ensures StepHolds(s, ParkedAt(s, p)) && Orphans(ParkedAt(s, p)) == Orphans(s)
  {
    ReplaceHolds(s, p, s.events[p].(status := Parked), s.epoll - {p});
  }

  /** The three outcomes of adding a fresh descriptor. */
  lemma AddFreshOutcome(s: LoopState, n: Notifier, f: Faults)
    requires n.rawFd !in s.events
    ensures var (s', err) := AddFresh(s, n, f); var b := NewBox(n, s.nextId);
            if f.first.Some? || n.rawFd in s.epoll then err.Some? && s' == s.(nextId := s.nextId + 1)
            else if GivenUp(s, n, f) then
              err.Some? && s' == s.(epoll := s.epoll[n.rawFd := Entry(b)], nextId := s.nextId + 1)
            else
              && err.None?
              && (n.parkedFd.Some? ==> n.parkedFd.value in s.events && n.parkedFd.value in s.epoll)
              && s' == if n.parkedFd.None? then Inserted(s, b) else ParkedAt(Inserted(s, b), n.parkedFd.value)
  {
    var b := NewBox(n, s.nextId);
    if n.parkedFd.Some? && n.parkedFd.value in s.events {
      var p := n.parkedFd.value;
      assert s.events[p := s.events[p].(status := Parked)][n.rawFd := b] ==
             s.events[n.rawFd := b][p := s.events[p].(status := Parked)];
    }
  }

  lemma AddFreshHolds(s: LoopState, n: Notifier, f: Faults)
    requires Inv(s) && n.rawFd !in s.events
    ensures StepHolds(s, AddFresh(s, n, f).0)
    ensures Orphans(AddFresh(s, n, f).0) == Orphans(s) + if GivenUp(s, n, f) then {n.rawFd} else {}
  {
    AddFreshOutcome(s, n, f);
    var b := NewBox(n, s.nextId);
    if f.first.None? && n.rawFd !in s.epoll {
      if GivenUp(s, n, f) {
        AbandonHolds(s, b);
      } else {
        InsertHolds(s, b);
        var s1 := Inserted(s, b);
        if n.parkedFd.Some? {
          ParkedHolds(s1, n.parkedFd.value);
          StepsHold(s, s1, ParkedAt(s1, n.parkedFd.value));
        }
      }
    }
  }

  /** Whatever one operation does, and however it fails: the invariant holds again, no further descriptor is lost,
      every box stays allocated, and an orphan appears exactly in the one failing case, never to disappear. */
  lemma ApplyHolds(s: LoopState, n: Notifier, f: Faults)
    requires Inv(s)
    ensures StepHolds(s, Apply(s, n, f).0)
    ensures Orphans(Apply(s, n, f).0) == Orphans(s) + if OrphaningAdd(s, n, f) then {n.rawFd} else {}
  {
    match n.op
    case AddExclusion => if n.rawFd !in s.events { AddFreshHolds(s, n, f); }
    case AddShared => if n.rawFd !in s.events { AddFreshHolds(s, n, f); } else { MergeHolds(s, n, f); }
    case Modify => ModifyHolds(s, n);
    case Park => ParkHolds(s, n, f);
    case Resume => ResumeHolds(s, n, f);
    case Delete => RmHolds(s, n, f);
  }
}
