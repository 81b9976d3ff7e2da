/** What each operation does, in every case and down to the last field: the new registry, interest set and garbage, and
    the error. Error numbers are those of Linux: EPERM 1, ENOENT 2, EBADF 9, EEXIST 17. */
module EventOutcomes {
  import opened Results
  import opened EventModel
  import opened EventDispatch

  /** An `epoll_ctl` that deletes fails for a reason of its own. */
  predicate DeletionFails(fault: Fault) {
    fault.Some? && fault.value != 1 && fault.value != 2 && fault.value != 9
  }

  /** A new notifier: refused by the kernel; accepted and given up, its entry staying behind; or registered with its own
      mask, handlers and displaced descriptor, which is then parked. */
  lemma AddOutcome(s: LoopState, n: Notifier, f: Faults)
    requires (n.op.AddExclusion? || n.op.AddShared?) && n.rawFd !in s.events
    ensures var (s', err) := Apply(s, n, f);
            var box := Box(s.nextId, n.rawFd, n.parkedFd, n.event, n.handlers, Alive);
            var epoll, next := s.epoll[n.rawFd := KernelEntry(n.event, s.nextId)], s.nextId + 1;
            var refused := LoopState(s.events, s.gc, s.epoll, next);
            var orphaned := LoopState(s.events, s.gc, epoll, next);
            if f.first.Some? then s' == refused && err == Some(Syscall(f.first.value))
            else if n.rawFd in s.epoll then s' == refused && err == Some(Syscall(17))
            else if n.parkedFd.None? then
              s' == LoopState(s.events[n.rawFd := box], s.gc, epoll, next) && err == None
            else
              var p := n.parkedFd.value;
              if p !in s.events then s' == orphaned && err == Some(NoParkedFd(p))
              else if DeletionFails(f.second) then s' == orphaned && err == Some(Syscall(f.second.value))
              else if p !in s.epoll then s' == orphaned && err == Some(Syscall(2))
              else
                var parked := s.events[p].(status := Parked);
                s' == LoopState(s.events[n.rawFd := box][p := parked], s.gc, epoll - {p}, next) && err == None
  {
    if n.parkedFd.Some? && n.parkedFd.value in s.events {
      var p, box := n.parkedFd.value, Box(s.nextId, n.rawFd, n.parkedFd, n.event, n.handlers, Alive);
      var parked := s.events[p].(status := Parked);
      assert s.events[p := parked][n.rawFd := box] == s.events[n.rawFd := box][p := parked];
    }
  }

  /** A second exclusive notifier for a registered descriptor is refused. */
  lemma ExclusiveOutcome(s: LoopState, n: Notifier, f: Faults)
    requires n.op.AddExclusion? && n.rawFd in s.events
    ensures Apply(s, n, f) == (s, Some(BadNotifierOperation))
  {
  }

  /** A second shared notifier adds its flags and its handlers, behind those that are there; the kernel hears of it only
      if the flags differ, and if it refuses nothing changes. */
  lemma MergeOutcome(s: LoopState, n: Notifier, f: Faults)
    requires n.op.AddShared? && n.rawFd in s.events
    ensures var (s', err) := Apply(s, n, f);
            var b := s.events[n.rawFd];
            var merged := Box(b.id, b.rawFd, b.parkedFd, b.event + n.event, b.handlers + n.handlers, b.status);
            var events := s.events[n.rawFd := merged];
            if b.event == n.event then s' == LoopState(events, s.gc, s.epoll, s.nextId) && err == None
            else if f.first.Some? then s' == s && err == Some(Syscall(f.first.value))
            else if n.rawFd !in s.epoll then s' == s && err == Some(Syscall(2))
            else
              && s' == LoopState(events, s.gc, s.epoll[n.rawFd := KernelEntry(b.event + n.event, b.id)], s.nextId)
              && err == None
  {
    var b := s.events[n.rawFd];
    if b.event == n.event {
      assert b.event + n.event == b.event;
    }
  }

  /** Only the handlers are replaced; flags, status and the kernel's entry stay. */
  lemma ModifyOutcome(s: LoopState, n: Notifier, f: Faults)
    requires n.op.Modify?
    ensures Apply(s, n, f) ==
            if n.rawFd !in s.events then (s, Some(NoRegisterFd(n.rawFd)))
            else
              var b := s.events[n.rawFd];
              var changed := Box(b.id, b.rawFd, b.parkedFd, b.event, n.handlers, b.status);
              (LoopState(s.events[n.rawFd := changed], s.gc, s.epoll, s.nextId), None)
  {
  }

  /** Parking fails for an unknown descriptor, by a fault, or if the kernel does not watch it (parked already, say). */
  lemma ParkOutcome(s: LoopState, n: Notifier, f: Faults)
    requires n.op.Park?
    ensures var (s', err) := Apply(s, n, f);
            if n.rawFd !in s.events then s' == s && err == Some(NoRegisterFd(n.rawFd))
            else if DeletionFails(f.first) then s' == s && err == Some(Syscall(f.first.value))
            else if n.rawFd !in s.epoll then s' == s && err == Some(Syscall(2))
            else
              var events := s.events[n.rawFd := s.events[n.rawFd].(status := Parked)];
              s' == LoopState(events, s.gc, s.epoll - {n.rawFd}, s.nextId) && err == None
  {
  }

  /** Resuming fails for an unknown descriptor, by a fault, or if the kernel watches it already. */
  lemma ResumeOutcome(s: LoopState, n: Notifier, f: Faults)
    requires n.op.Resume?
    ensures var (s', err) := Apply(s, n, f);
            if n.rawFd !in s.events then s' == s && err == Some(NoRegisterFd(n.rawFd))
            else if f.first.Some? then s' == s && err == Some(Syscall(f.first.value))
            else if n.rawFd in s.epoll then s' == s && err == Some(Syscall(17))
            else
              var b := s.events[n.rawFd];
              var events := s.events[n.rawFd := b.(status := Alive)];
              s' == LoopState(events, s.gc, s.epoll[n.rawFd := KernelEntry(b.event, b.id)], s.nextId) && err == None
  {
  }

  /** A deletion is refused only by a fault on an Alive descriptor. Else the box goes to the end of the garbage, and if
      it had displaced another descriptor, that one is watched again unless it is unknown, or the kernel refuses it. */
  lemma DeleteOutcome(s: LoopState, n: Notifier, f: Faults)
    requires Agree(s) && n.op.Delete? && n.rawFd in s.events
    ensures var (s', err) := Apply(s, n, f);
            var b := s.events[n.rawFd];
            var events, epoll, gc := s.events - {n.rawFd}, s.epoll - {n.rawFd}, s.gc + [b.(status := Removed)];
            var gone := LoopState(events, gc, epoll, s.nextId);
            if b.status.Alive? && DeletionFails(f.first) then s' == s && err == Some(BadSyscall(f.first.value))
            else if b.parkedFd.None? then s' == gone && err == None
            else
              var p := b.parkedFd.value;
              if p !in events then s' == gone && err == Some(NoParkedFd(p))
              else if f.second.Some? then s' == gone && err == Some(Syscall(f.second.value))
              else if p in s.epoll then s' == gone && err == Some(Syscall(17))
              else
                var back := s.events[p].(status := Alive);
                && s' == LoopState(events[p := back], gc, epoll[p := KernelEntry(back.event, back.id)], s.nextId)
                && err == None
  {
    assert n.rawFd !in s.epoll ==> s.epoll - {n.rawFd} == s.epoll;
  }

  lemma DeleteUnknown(s: LoopState, n: Notifier, f: Faults)
    requires n.op.Delete? && n.rawFd !in s.events
    ensures Apply(s, n, f) == (s, Some(NoRegisterFd(n.rawFd)))
  {
  }

  /** The operations of a list take place one after the other, each on what the one before left and what was closed
      since, until one has failed. */
  lemma ListOutcome(s: LoopState, ns: seq<Notifier>, k: nat, faults: seq<Faults>)
    requires k < |ns|
    ensures UpdateTo(s, ns, 0, faults) == (s, None)
    ensures var (s1, err) := UpdateTo(s, ns, k, faults);
            var f := if k < |faults| then faults[k] else Faults({}, None, None);
            UpdateTo(s, ns, k + 1, faults) ==
            if err.Some? then (s1, err)
            else Apply(LoopState(s1.events, s1.gc, s1.epoll - f.closed, s1.nextId), ns[k], f)
  {
    var s1 := UpdateTo(s, ns, k, faults).0;
    assert s1.epoll - {} == s1.epoll;
  }

  /** The entries of a batch are served one after the other: what an Alive notifier's handlers ask for is applied to
      the state they ran in, less what was closed since; any other notifier asks for nothing. */
  lemma EntryOutcome(s: LoopState, batch: seq<Ready>, k: nat, h: Callbacks, env: seq<Outside>, own: OwnHandler, b: Box)
    requires k < |batch| && BoxAt(Before(s, batch, k, h, env), batch[k].data) == Some(b)
    ensures Before(s, batch, 0, h, env) == s
    ensures var s1 := Before(s, batch, k, h, env);
            var o := if k < |env| then env[k] else Outside({}, []);
            var asked := if b.status.Alive? then Requests(h, k, b.handlers, batch[k].mask, b.rawFd) else [];
            var (s2, err) :=
              UpdateTo(LoopState(s1.events, s1.gc, s1.epoll - o.closed, s1.nextId), asked, |asked|, o.faults);
            && Before(s, batch, k + 1, h, env) == s2
            && Effects(s, batch, k + 1, h, env, own)[k] ==
               Effect(b.status.Alive? && own.id in b.handlers && b.rawFd == own.fd, err.None?)
  {
    var s1 := Before(s, batch, k, h, env);
    assert s1.epoll - {} == s1.epoll;
  }

  /** A turn is its batch, and then half of the garbage, rounded up, is freed from the front. */
  lemma TurnOutcome(s: LoopState, fds: seq<(Fd, EventSet)>, h: Callbacks, env: seq<Outside>)
    ensures var batch := Wait(s.epoll, fds);
            var s1 := Before(s, batch, |batch|, h, env);
            Iterate(s, fds, h, env) == LoopState(s1.events, s1.gc[(|s1.gc| + 1) / 2..], s1.epoll, s1.nextId)
  {
  }

  /** The kernel reports one event, with its mask and the registered pointer, for each named descriptor it watches... */
  lemma WaitOne(epoll: map<Fd, KernelEntry>, fd: Fd, mask: EventSet)
    ensures Wait(epoll, [(fd, mask)]) == if fd in epoll then [Ready(mask, epoll[fd].data)] else []
  {
    assert [(fd, mask)][1..] == [];
  }

  /** ...one after the other. */
  lemma {:induction false} WaitInOrder(epoll: map<Fd, KernelEntry>, a: seq<(Fd, EventSet)>, b: seq<(Fd, EventSet)>)
    ensures Wait(epoll, a + b) == Wait(epoll, a) + Wait(epoll, b)
  {
    if a == [] {
      assert a + b == b;
    } else {
      assert (a + b)[1..] == a[1..] + b;
      WaitInOrder(epoll, a[1..], b);
    }
  }

  // ---- What handlers ask for ----

  function Answer(h: Callbacks, i: nat, handlers: seq<HandlerId>, j: nat, mask: EventSet, fd: Fd): seq<Notifier>
    requires j < |handlers|
  {
    match h(i, j, handlers[j], mask, fd)
    case Some(asked) => asked
    case None => []
  }

  /** The length of the first `j` answers together. */
  function Offset(h: Callbacks, i: nat, handlers: seq<HandlerId>, j: nat, mask: EventSet, fd: Fd): nat
    requires j <= |handlers|
  {
    if j == 0 then 0 else Offset(h, i, handlers, j - 1, mask, fd) + |Answer(h, i, handlers, j - 1, mask, fd)|
  }

  lemma {:induction false} OffsetOfPrefix(h: Callbacks, i: nat, handlers: seq<HandlerId>, j: nat, m: nat,
                                          mask: EventSet, fd: Fd)
    requires j <= m <= |handlers|
    ensures Offset(h, i, handlers[..m], j, mask, fd) == Offset(h, i, handlers, j, mask, fd)
  {
    if j > 0 {
      OffsetOfPrefix(h, i, handlers, j - 1, m, mask, fd);
    }
  }

  lemma {:induction false} RequestsLength(h: Callbacks, i: nat, handlers: seq<HandlerId>, mask: EventSet, fd: Fd)
    ensures |Requests(h, i, handlers, mask, fd)| == Offset(h, i, handlers, |handlers|, mask, fd)
  {
    if handlers != [] {
      var last := |handlers| - 1;
      RequestsLength(h, i, handlers[..last], mask, fd);
      OffsetOfPrefix(h, i, handlers, last, last, mask, fd);
    }
  }

  lemma SliceOfFront(front: seq<Notifier>, back: seq<Notifier>, from: nat, to: nat)
    requires from <= to <= |front|
    ensures (front + back)[from..to] == front[from..to]
  {
  }

  lemma SliceOfBack(front: seq<Notifier>, back: seq<Notifier>)
    ensures (front + back)[|front|..|front| + |back|] == back
  {
  }

  /** Handler `j`'s answer stands whole in `asked`, behind the answers before it. */
  predicate AnswerStands(h: Callbacks, i: nat, handlers: seq<HandlerId>, j: nat, mask: EventSet, fd: Fd,
                         asked: seq<Notifier>)
    requires j < |handlers|
  {
    var from, answer := Offset(h, i, handlers, j, mask, fd), Answer(h, i, handlers, j, mask, fd);
    from + |answer| <= |asked| && asked[from..from + |answer|] == answer
  }

  lemma StandsBehind(h: Callbacks, i: nat, handlers: seq<HandlerId>, j: nat, mask: EventSet, fd: Fd,
                     front: seq<Notifier>, back: seq<Notifier>)
    requires j + 1 < |handlers| && AnswerStands(h, i, handlers[..|handlers| - 1], j, mask, fd, front)
    ensures AnswerStands(h, i, handlers, j, mask, fd, front + back)
  {
    OffsetOfPrefix(h, i, handlers, j, |handlers| - 1, mask, fd);
    var from, answer := Offset(h, i, handlers, j, mask, fd), Answer(h, i, handlers, j, mask, fd);
    SliceOfFront(front, back, from, from + |answer|);
  }

  /** The answers stand one behind the other in the order of the handlers, each whole, and there is nothing else. */
  lemma {:induction false} RequestsInOrder(h: Callbacks, i: nat, handlers: seq<HandlerId>, j: nat, mask: EventSet,
                                           fd: Fd)
    requires j < |handlers|
    ensures AnswerStands(h, i, handlers, j, mask, fd, Requests(h, i, handlers, mask, fd))
    ensures |Requests(h, i, handlers, mask, fd)| == Offset(h, i, handlers, |handlers|, mask, fd)
  {
    var last := |handlers| - 1;
    var front, back := Requests(h, i, handlers[..last], mask, fd), Answer(h, i, handlers, last, mask, fd);
    RequestsLength(h, i, handlers, mask, fd);
    assert Requests(h, i, handlers, mask, fd) == front + back;
    if j < last {
      RequestsInOrder(h, i, handlers[..last], j, mask, fd);
      StandsBehind(h, i, handlers, j, mask, fd, front, back);
    } else {
      RequestsLength(h, i, handlers[..last], mask, fd);
      OffsetOfPrefix(h, i, handlers, last, last, mask, fd);
      SliceOfBack(front, back);
    }
  }

  /** What is asked for is exactly what some handler asked for. */
  lemma {:induction false} RequestsExactly(h: Callbacks, i: nat, handlers: seq<HandlerId>, mask: EventSet, fd: Fd,
                                           n: Notifier)
    ensures n in Requests(h, i, handlers, mask, fd) <==>
            exists j :: 0 <= j < |handlers| && h(i, j, handlers[j], mask, fd).Some? &&
                        n in h(i, j, handlers[j], mask, fd).value
  {
    if handlers != [] {
      var last := |handlers| - 1;
      RequestsExactly(h, i, handlers[..last], mask, fd, n);
      assert forall j :: 0 <= j < last ==> handlers[..last][j] == handlers[j];
    }
  }
}
