/** Operations that undo each other. */
module EventRoundTrips {
  import opened Results
  import opened EventModel
  import opened EventLaws

  predicate IsAdd(n: Notifier) {
    n.op.AddExclusion? || n.op.AddShared?
  }

  /** A fresh descriptor whose displaced descriptor, if any, is registered and watched. */
  ghost predicate CanAdd(s: LoopState, n: Notifier) {
    && IsAdd(n) && n.rawFd !in s.events && n.rawFd !in s.epoll
    && (n.parkedFd.Some? ==> n.parkedFd.value in s.events && n.parkedFd.value in s.epoll)
  }

  /** A watched descriptor whose displaced descriptor, if any, is registered and not watched. */
  ghost predicate CanDrop(s: LoopState, fd: Fd) {
    && fd in s.events && s.events[fd].rawFd == fd && s.events[fd].status.Alive? && fd in s.epoll
    && var p := s.events[fd].parkedFd;
       p.Some? ==> p.value != fd && p.value in s.events && p.value !in s.epoll
  }

  /** A successful add. */
  function Added(s: LoopState, n: Notifier): LoopState {
    var s1 := Inserted(s, NewBox(n, s.nextId));
    if n.parkedFd.Some? && n.parkedFd.value in s1.events then ParkedAt(s1, n.parkedFd.value) else s1
  }

  function Rewatched(s: LoopState, p: Fd): LoopState
    requires p in s.events
  {
    var b := s.events[p].(status := Alive);
    s.(events := s.events[p := b], epoll := s.epoll[p := Entry(b)])
  }

  /** A successful delete. */
  function Dropped(s: LoopState, fd: Fd): LoopState
    requires fd in s.events
  {
    var s1, p := Retired(s, fd), s.events[fd].parkedFd;
    if p.Some? && p.value in s1.events then Rewatched(s1, p.value) else s1
  }

  function DeleteOf(fd: Fd): Notifier {
    Notifier(Delete, fd, None, {0}, [])
  }

  function FreedBox(n: Notifier, id: nat): Box {
    NewBox(n, id).(status := Removed)
  }

  lemma AddSucceeds(s: LoopState, n: Notifier)
    requires CanAdd(s, n)
    ensures Apply(s, n, NO_FAULTS) == (Added(s, n), None)
  {
    AddFreshOutcome(s, n, NO_FAULTS);
  }

  lemma DeleteSucceeds(s: LoopState, fd: Fd)
    requires CanDrop(s, fd)
    ensures Apply(s, DeleteOf(fd), NO_FAULTS) == (Dropped(s, fd), None)
  {
  }

  /** Adding a descriptor and deleting it again restores everything; only the garbage grows, by that one box. */
  lemma AddThenDelete(s: LoopState, n: Notifier)
    requires Inv(s) && CanAdd(s, n)
    ensures var (s1, err1) := Apply(s, n, NO_FAULTS);
            && err1.None? && s1 == Added(s, n) && CanDrop(s1, n.rawFd)
            && Apply(s1, DeleteOf(n.rawFd), NO_FAULTS) ==
               (s.(gc := s.gc + [FreedBox(n, s.nextId)], nextId := s.nextId + 1), None)
  {
    AddSucceeds(s, n);
    var s1 := Added(s, n);
    DeleteSucceeds(s1, n.rawFd);
    var s2 := Dropped(s1, n.rawFd);
    assert s2.epoll == s.epoll;
    assert s2.events == s.events;
  }

  /** Parking a watched descriptor and resuming it changes nothing. */
  lemma ParkThenResume(s: LoopState, park: Notifier, resume: Notifier)
    requires Inv(s) && park.op.Park? && resume.op.Resume? && park.rawFd == resume.rawFd
    requires park.rawFd in s.events && park.rawFd in s.epoll
    ensures Apply(s, park, NO_FAULTS).1.None?
    ensures Apply(Apply(s, park, NO_FAULTS).0, resume, NO_FAULTS) == (s, None)
  {
    var s2 := Apply(Apply(s, park, NO_FAULTS).0, resume, NO_FAULTS).0;
    assert s2.events == s.events && s2.epoll == s.epoll;
  }

  /** A descriptor closed behind the loop's back leaves the registry when deleted, whatever the kernel says; the
      deletion succeeds exactly if a descriptor it had displaced can be watched again, which it then is. */
  lemma CloseThenDelete(s: LoopState, fd: Fd)
    requires Inv(s) && fd in s.events
    ensures var closed, p := Shut(s, {fd}), s.events[fd].parkedFd;
            var (s', err) := Apply(closed, DeleteOf(fd), NO_FAULTS);
            && fd !in s'.events && s'.gc == s.gc + [s.events[fd].(status := Removed)]
            && (err.None? <==> p.None? || (p.value != fd && p.value in s.events && p.value !in s.epoll))
            && (err.None? ==> s' == Dropped(closed, fd))
  {
    var closed := Shut(s, {fd});
    assert closed.epoll - {fd} == closed.epoll;
  }

  // ---- Lists of adds ----

  predicate Disjoint(a: Fd, p: Option<Fd>, b: Fd, q: Option<Fd>) {
    && a != b && p != Some(b) && q != Some(a)
    && (p.Some? ==> p != q)
  }

  lemma CommuteEnabled(s: LoopState, n: Notifier, fd: Fd)
    requires CanAdd(s, n) && CanDrop(s, fd)
    requires Disjoint(fd, s.events[fd].parkedFd, n.rawFd, n.parkedFd)
    ensures CanDrop(Added(s, n), fd) && CanAdd(Dropped(s, fd), n)
    ensures Added(s, n).events[fd] == s.events[fd]
  {
  }

  lemma AddedMaps(s: LoopState, n: Notifier)
    requires CanAdd(s, n)
    ensures var s' := Added(s, n);
            if n.parkedFd.None? then
              && s'.events == s.events[n.rawFd := NewBox(n, s.nextId)]
              && s'.epoll == s.epoll[n.rawFd := Entry(NewBox(n, s.nextId))]
            else
              var p := n.parkedFd.value;
              && s'.events == s.events[n.rawFd := NewBox(n, s.nextId)][p := s.events[p].(status := Parked)]
              && s'.epoll == s.epoll[n.rawFd := Entry(NewBox(n, s.nextId))] - {p}
  {
  }

  lemma DroppedMaps(s: LoopState, fd: Fd)
    requires CanDrop(s, fd)
    ensures var s' := Dropped(s, fd);
            if s.events[fd].parkedFd.None? then s'.events == s.events - {fd} && s'.epoll == s.epoll - {fd}
            else
              var p := s.events[fd].parkedFd.value;
              var b := s.events[p].(status := Alive);
              s'.events == (s.events - {fd})[p := b] && s'.epoll == (s.epoll - {fd})[p := Entry(b)]
  {
  }

  lemma CommuteEvents(s: LoopState, n: Notifier, fd: Fd)
    requires CanAdd(s, n) && CanDrop(s, fd)
    requires Disjoint(fd, s.events[fd].parkedFd, n.rawFd, n.parkedFd)
    ensures fd in Added(s, n).events
    ensures Dropped(Added(s, n), fd).events == Added(Dropped(s, fd), n).events
  {
    CommuteEnabled(s, n, fd);
    AddedMaps(s, n);
    DroppedMaps(s, fd);
    DroppedMaps(Added(s, n), fd);
    AddedMaps(Dropped(s, fd), n);
  }

  lemma CommuteEpoll(s: LoopState, n: Notifier, fd: Fd)
    requires CanAdd(s, n) && CanDrop(s, fd)
    requires Disjoint(fd, s.events[fd].parkedFd, n.rawFd, n.parkedFd)
    ensures fd in Added(s, n).events
    ensures Dropped(Added(s, n), fd).epoll == Added(Dropped(s, fd), n).epoll
  {
    CommuteEnabled(s, n, fd);
    AddedMaps(s, n);
    DroppedMaps(s, fd);
    DroppedMaps(Added(s, n), fd);
    AddedMaps(Dropped(s, fd), n);
  }

  lemma CommuteDropAdd(s: LoopState, n: Notifier, fd: Fd)
    requires CanAdd(s, n) && CanDrop(s, fd)
    requires Disjoint(fd, s.events[fd].parkedFd, n.rawFd, n.parkedFd)
    ensures CanDrop(Added(s, n), fd) && CanAdd(Dropped(s, fd), n)
    ensures Added(s, n).events[fd] == s.events[fd]
    ensures Dropped(Added(s, n), fd) == Added(Dropped(s, fd), n)
  {
    CommuteEnabled(s, n, fd);
    CommuteEvents(s, n, fd);
    CommuteEpoll(s, n, fd);
  }

  /** Distinct fresh descriptors, with no displaced descriptors or distinct watched ones outside the list. */
  ghost predicate Batchable(s: LoopState, ns: seq<Notifier>) {
    && (forall i :: 0 <= i < |ns| ==> CanAdd(s, ns[i]))
    && (forall i, j :: 0 <= i < j < |ns| ==> Disjoint(ns[i].rawFd, ns[i].parkedFd, ns[j].rawFd, ns[j].parkedFd))
  }

  function AddedAll(s: LoopState, ns: seq<Notifier>): LoopState
    decreases |ns|
  {
    if ns == [] then s else AddedAll(Added(s, ns[0]), ns[1..])
  }

  lemma AddOne(s: LoopState, n: Notifier, m: Notifier)
    requires CanAdd(s, n) && CanAdd(s, m) && Disjoint(n.rawFd, n.parkedFd, m.rawFd, m.parkedFd)
    ensures CanAdd(Added(s, n), m)
  {
  }

  lemma BatchableRest(s: LoopState, ns: seq<Notifier>)
    requires Batchable(s, ns) && ns != []
    ensures Batchable(Added(s, ns[0]), ns[1..])
  {
    forall i | 0 <= i < |ns[1..]| ensures CanAdd(Added(s, ns[0]), ns[1..][i]) {
      AddOne(s, ns[0], ns[i + 1]);
    }
  }

  lemma BatchableDropped(s: LoopState, ns: seq<Notifier>, fd: Fd)
    requires Batchable(s, ns) && CanDrop(s, fd)
    requires forall i :: 0 <= i < |ns| ==> Disjoint(fd, s.events[fd].parkedFd, ns[i].rawFd, ns[i].parkedFd)
    ensures Batchable(Dropped(s, fd), ns)
  {
    forall i | 0 <= i < |ns| ensures CanAdd(Dropped(s, fd), ns[i]) {
      CommuteDropAdd(s, ns[i], fd);
    }
  }

  /** Deleting a descriptor before or after a list of unrelated adds comes to the same. */
  lemma {:induction false} DropThroughAdds(s: LoopState, ns: seq<Notifier>, fd: Fd)
    requires Batchable(s, ns) && CanDrop(s, fd)
    requires forall i :: 0 <= i < |ns| ==> Disjoint(fd, s.events[fd].parkedFd, ns[i].rawFd, ns[i].parkedFd)
    ensures CanDrop(AddedAll(s, ns), fd)
    ensures Dropped(AddedAll(s, ns), fd) == AddedAll(Dropped(s, fd), ns)
    decreases |ns|
  {
    if ns != [] {
      CommuteDropAdd(s, ns[0], fd);
      BatchableRest(s, ns);
      DropThroughAdds(Added(s, ns[0]), ns[1..], fd);
    }
  }

  /** The boxes a list of adds leaves in the garbage once deleted, in order. */
  function FreedBoxes(ns: seq<Notifier>, id: nat): seq<Box> {
    if ns == [] then [] else [FreedBox(ns[0], id)] + FreedBoxes(ns[1..], id + 1)
  }

  function RawFds(ns: seq<Notifier>): seq<Fd> {
    if ns == [] then [] else [ns[0].rawFd] + RawFds(ns[1..])
  }

  function DeleteNotifiers(fds: seq<Fd>): seq<Notifier> {
    if fds == [] then [] else [DeleteOf(fds[0])] + DeleteNotifiers(fds[1..])
  }

  // ---- From lists to the loop's update ----

  /** An update list may be read from its front. */
  lemma {:induction false} UpdateFromFront(s: LoopState, ns: seq<Notifier>, k: nat)
    requires 0 < k <= |ns| && Apply(s, ns[0], NO_FAULTS).1.None?
    ensures UpdateTo(s, ns, k, []) == UpdateTo(Apply(s, ns[0], NO_FAULTS).0, ns[1..], k - 1, [])
  {
    if k > 1 {
      UpdateFromFront(s, ns, k - 1);
    }
  }

  lemma {:induction false} AddsSucceed(s: LoopState, ns: seq<Notifier>)
    requires Batchable(s, ns)
    ensures UpdateEvents(s, ns, []) == (AddedAll(s, ns), None)
    decreases |ns|
  {
    if ns != [] {
      AddSucceeds(s, ns[0]);
      UpdateFromFront(s, ns, |ns|);
      BatchableRest(s, ns);
      AddsSucceed(Added(s, ns[0]), ns[1..]);
    }
  }

  lemma UndoneInv(s: LoopState, n: Notifier)
    requires Inv(s) && CanAdd(s, n)
    ensures n.rawFd in Added(s, n).events && Inv(Dropped(Added(s, n), n.rawFd))
  {
    AddSucceeds(s, n);
    ApplyHolds(s, n, NO_FAULTS);
    AddThenDelete(s, n);
    DeleteSucceeds(Added(s, n), n.rawFd);
    ApplyHolds(Added(s, n), DeleteOf(n.rawFd), NO_FAULTS);
  }

  /** Deleting the first of a list of added descriptors leaves the list without it. */
  lemma UndoFirst(s: LoopState, ns: seq<Notifier>)
    requires Inv(s) && Batchable(s, ns) && ns != []
    ensures var s1 := s.(gc := s.gc + [FreedBox(ns[0], s.nextId)], nextId := s.nextId + 1);
            && Inv(s1) && Batchable(s1, ns[1..])
            && Apply(AddedAll(s, ns), DeleteOf(ns[0].rawFd), NO_FAULTS) == (AddedAll(s1, ns[1..]), None)
  {
    var fd, rest, added := ns[0].rawFd, ns[1..], Added(s, ns[0]);
    AddThenDelete(s, ns[0]);
    DeleteSucceeds(added, fd);
    UndoneInv(s, ns[0]);
    BatchableRest(s, ns);
    assert forall i :: 0 <= i < |rest| ==> Disjoint(fd, added.events[fd].parkedFd, rest[i].rawFd, rest[i].parkedFd) by {
      assert added.events[fd].parkedFd == ns[0].parkedFd;
      assert forall i :: 0 <= i < |rest| ==> rest[i] == ns[i + 1];
    }
    DropThroughAdds(added, rest, fd);
    BatchableDropped(added, rest, fd);
    DeleteSucceeds(AddedAll(s, ns), fd);
  }

  lemma DeletesInTurn(s: LoopState, fd: Fd, fds: seq<Fd>)
    requires Apply(s, DeleteOf(fd), NO_FAULTS).1.None?
    ensures UpdateEvents(s, DeleteNotifiers([fd] + fds), []) ==
            UpdateEvents(Apply(s, DeleteOf(fd), NO_FAULTS).0, DeleteNotifiers(fds), [])
  {
    var ns := DeleteNotifiers([fd] + fds);
    assert ([fd] + fds)[1..] == fds && ns == [DeleteOf(fd)] + DeleteNotifiers(fds);
    UpdateFromFront(s, ns, |ns|);
    assert ns[1..] == DeleteNotifiers(fds);
  }

  ghost predicate Undone(s: LoopState, ns: seq<Notifier>, goal: LoopState) {
    UpdateEvents(AddedAll(s, ns), DeleteNotifiers(RawFds(ns)), []) == (goal, None)
  }

  lemma UndoInTurn(s: LoopState, ns: seq<Notifier>, goal: LoopState)
    requires Inv(s) && Batchable(s, ns) && ns != []
    requires Undone(s.(gc := s.gc + [FreedBox(ns[0], s.nextId)], nextId := s.nextId + 1), ns[1..], goal)
    ensures Undone(s, ns, goal)
  {
    UndoFirst(s, ns);
    DeletesInTurn(AddedAll(s, ns), ns[0].rawFd, RawFds(ns[1..]));
  }

  lemma UndoFirstKeeps(s: LoopState, ns: seq<Notifier>)
    requires Inv(s) && Batchable(s, ns) && ns != []
    ensures var s1 := s.(gc := s.gc + [FreedBox(ns[0], s.nextId)], nextId := s.nextId + 1);
            Inv(s1) && Batchable(s1, ns[1..])
  {
    UndoFirst(s, ns);
  }

  lemma {:induction false} DeletesUndoAdds(s: LoopState, ns: seq<Notifier>)
    requires Inv(s) && Batchable(s, ns)
    ensures Undone(s, ns, s.(gc := s.gc + FreedBoxes(ns, s.nextId), nextId := s.nextId + |ns|))
    decreases |ns|
  {
    if ns == [] {
      assert s.gc + [] == s.gc;
    } else {
      var s1 := s.(gc := s.gc + [FreedBox(ns[0], s.nextId)], nextId := s.nextId + 1);
      UndoFirstKeeps(s, ns);
      DeletesUndoAdds(s1, ns[1..]);
      assert s1.gc + FreedBoxes(ns[1..], s1.nextId) == s.gc + FreedBoxes(ns, s.nextId);
      UndoInTurn(s, ns, s.(gc := s.gc + FreedBoxes(ns, s.nextId), nextId := s.nextId + |ns|));
    }
  }

  // ---- The two helpers ----

  /** Registers a list and records its descriptors; on failure nothing is recorded. */
  function Register(s: LoopState, ns: seq<Notifier>, record: seq<Fd>, faults: seq<Faults>)
    : (LoopState, seq<Fd>, Option<Error>)
  {
    var (s', err) := UpdateEvents(s, ns, faults);
    (s', if err.None? then record + RawFds(ns) else record, err)
  }

  /** Deletes every recorded descriptor and forgets them; on failure the record is kept. */
  function Unregister(s: LoopState, record: seq<Fd>, faults: seq<Faults>): (LoopState, seq<Fd>, Option<Error>) {
    var (s', err) := UpdateEvents(s, DeleteNotifiers(record), faults);
    (s', if err.None? then [] else record, err)
  }

  /** Registering a list of fresh notifiers and unregistering what was recorded restores registry, interest set
      and record. */
  lemma RegisterThenUnregister(s: LoopState, ns: seq<Notifier>)
    requires Inv(s) && Batchable(s, ns)
    ensures var (s1, record, err1) := Register(s, ns, [], []);
            var (s2, record2, err2) := Unregister(s1, record, []);
            && err1.None? && err2.None? && record == RawFds(ns) && record2 == []
            && s2.events == s.events && s2.epoll == s.epoll
            && s2.gc == s.gc + FreedBoxes(ns, s.nextId)
  {
    AddsSucceed(s, ns);
    assert [] + RawFds(ns) == RawFds(ns);
    DeletesUndoAdds(s, ns);
  }
}
