/** The event loop's registry as the program keeps it: boxed notifiers that are updated in place. */
module EventContext {
  import opened Results
  import opened EventModel
  import opened EventDispatch
  import opened TimerModel
  import opened EventFd
  import WakeUp

  /** A notifier boxed by the loop. */
  class EventNotifier {
    ghost const id: nat
    const rawFd: Fd
    const parkedFd: Option<Fd>
    var event: EventSet
    var handlers: seq<HandlerId>
    var status: EventStatus

    ghost function View(): Box
      reads this
    {
      Box(id, rawFd, parkedFd, event, handlers, status)
    }

    constructor (n: Notifier, ghost id: nat)
      ensures View() == NewBox(n, id)
    {
      this.id := id;
      rawFd := n.rawFd;
      parkedFd := n.parkedFd;
      event := n.event;
      handlers := n.handlers;
      status := Alive;
    }
  }

  /** The kernel's entry for a descriptor: the mask and the pointer it hands back. */
  datatype Watch = Watch(mask: EventSet, data: EventNotifier)

  datatype WatchCommand = WatchAdd(watch: Watch) | WatchModify(watch: Watch) | WatchDelete {
    ghost function View(): Command {
      match this
      case WatchAdd(w) => CtlAdd(KernelEntry(w.mask, w.data.id))
      case WatchModify(w) => CtlModify(KernelEntry(w.mask, w.data.id))
      case WatchDelete => CtlDelete
    }
  }

  class EventLoopContext {
    var epoll: map<Fd, Watch>               // the kernel's interest set
    var events: map<Fd, EventNotifier>
    var gc: seq<EventNotifier>
    var timers: seq<Timer>
    var kicked: bool
    var kickMe: bool
    var kickEvent: nat                      // the counter behind the eventfd
    const own: OwnHandler                   // the handler of that eventfd
    ghost var boxes: seq<EventNotifier>     // every box ever made, by its id

    ghost function EpollView(): map<Fd, KernelEntry>
      reads this`epoll
    {
      map fd | fd in epoll :: KernelEntry(epoll[fd].mask, epoll[fd].data.id)
    }

    ghost function EventsView(): map<Fd, Box>
      reads this`events, events.Values
    {
      map fd | fd in events :: events[fd].View()
    }

    ghost function GcView(): seq<Box>
      reads this`gc, gc
    {
      var freed := gc;
      seq(|freed|, i requires 0 <= i < |freed| reads freed => freed[i].View())
    }

    ghost function View(): LoopState
      reads this`epoll, this`events, this`gc, this`boxes, events.Values, gc
    {
      LoopState(EventsView(), GcView(), EpollView(), |boxes|)
    }

    /** Boxes are made, and never forgotten. */
    twostate predicate Grown()
      reads this`boxes
    {
      old(boxes) <= boxes && forall i :: |old(boxes)| <= i < |boxes| ==> fresh(boxes[i])
    }

    ghost predicate Known(o: EventNotifier)
      reads this`boxes
    {
      o.id < |boxes| && boxes[o.id] == o
    }

    /** Every box is known by its id and sits in one place. */
    ghost predicate Valid()
      reads this`epoll, this`events, this`gc, this`boxes
    {
      && (forall fd :: fd in events ==> Known(events[fd]) && events[fd].rawFd == fd)
      && (forall i :: 0 <= i < |gc| ==> Known(gc[i]))
      && (forall fd :: fd in epoll ==> Known(epoll[fd].data))
      && (forall fd, other :: fd in events && other in events && fd != other ==> events[fd] != events[other])
      && (forall i, fd :: 0 <= i < |gc| && fd in events ==> gc[i] != events[fd])
    }

    ghost function KickView(): Kick
      reads this`kicked, this`kickEvent
    {
      Kick(kicked, kickEvent)
    }

    constructor (own: OwnHandler)
      ensures Valid() && View() == LoopState(map[], [], map[], 0) && this.own == own
      ensures timers == [] && KickView() == Kick(false, 0) && !kickMe
    {
      this.own := own;
      epoll, events, gc, timers, boxes := map[], map[], [], [], [];
      kicked, kickMe, kickEvent := false, false, 0;
    }

    /** Registers the eventfd behind `tick`, as the first notifier of a new loop. */
    method InitTick(f: Faults) returns (err: Option<Error>)
      requires Valid() && View() == LoopState(map[], [], map[], 0)
      modifies this`epoll, this`events, this`boxes
      ensures Valid() && (err.None? <==> f.first.None?)
      ensures err.None? ==>
                var kick := Box(0, own.fd, None, {0}, [own.id], Alive);
                View() == LoopState(map[own.fd := kick], [], map[own.fd := Entry(kick)], 1)
    {
      assert EventsView() == map[];
      assert events == map[] by {
        assert forall fd :: fd in events ==> fd in EventsView();
      }
      err := AddEvent(Notifier(AddExclusion, own.fd, None, {0}, [own.id]), f);
    }

    method EpollCtl(command: WatchCommand, fd: Fd, fault: Fault) returns (err: Option<int>)
      modifies this`epoll
      ensures (EpollView(), err) == Ctl(old(EpollView()), command.View(), fd, fault)
      ensures forall f :: f in epoll ==>
                (f in old(epoll) && epoll[f] == old(epoll)[f]) || (!command.WatchDelete? && epoll[f] == command.watch)
    {
      if Strikes(fault, command.WatchDelete?) {
        return fault;
      }
      match command {
        case WatchAdd(watch) =>
          if fd in epoll {
            return Some(EEXIST);
          }
          epoll := epoll[fd := watch];
          assert EpollView() == old(EpollView())[fd := KernelEntry(watch.mask, watch.data.id)];
        case WatchModify(watch) =>
          if fd !in epoll {
            return Some(ENOENT);
          }
          epoll := epoll[fd := watch];
          assert EpollView() == old(EpollView())[fd := KernelEntry(watch.mask, watch.data.id)];
        case WatchDelete =>
          if fd !in epoll {
            return Some(ENOENT);
          }
          epoll := epoll - {fd};
          assert EpollView() == old(EpollView()) - {fd};
      }
      return None;
    }

    /** Only the box of `fd` was written since. */
    twostate lemma OneBoxWritten(fd: Fd)
      requires old(Valid()) && fd in events && events == old(events) && gc == old(gc)
      requires forall o :: o in old(events.Values) && o != events[fd] ==> unchanged(o)
      requires forall o :: o in old(gc) && o != events[fd] ==> unchanged(o)
      ensures EventsView() == old(EventsView())[fd := events[fd].View()]
      ensures GcView() == old(GcView())
    {
      forall other | other in events && other != fd
        ensures events[other].View() == old(events[other].View())
      {
        assert events[other] in old(events.Values);
      }
      forall i | 0 <= i < |gc|
        ensures gc[i].View() == old(gc[i].View())
      {
        assert gc[i] in old(gc);
      }
    }

    method SetHandlers(fd: Fd, handlers: seq<HandlerId>)
      requires Valid() && fd in events
      modifies events[fd]
      ensures Valid() && View() == WithHandlers(old(View()), fd, handlers)
      ensures events[fd].handlers == handlers && events[fd].event == old(events[fd].event)
    {
      var notifier := events[fd];
      notifier.handlers := handlers;
      OneBoxWritten(fd);
    }

    method ModifyEvent(event: Notifier) returns (err: Option<Error>)
      requires Valid()
      modifies boxes
      ensures Valid() && (View(), err) == EventModel.ModifyEvent(old(View()), event)
    {
      if event.rawFd !in events {
        return Some(NoRegisterFd(event.rawFd));
      }
      SetHandlers(event.rawFd, event.handlers);
      return None;
    }

    /** A registered descriptor is watched no longer. */
    method Unwatch(fd: Fd, fault: Fault) returns (err: Option<Error>)
      requires Valid() && fd in events
      modifies this`epoll, events[fd]
      ensures Valid() && (View(), err) == EventModel.Unwatch(old(View()), fd, fault)
    {
      var notifier := events[fd];
      var e := EpollCtl(WatchDelete, fd, fault);
      if e.Some? {
        return Some(Syscall(e.value));
      }
      notifier.status := Parked;
      OneBoxWritten(fd);
      return None;
    }

    /** A registered descriptor is watched again. */
    method Rewatch(fd: Fd, fault: Fault) returns (err: Option<Error>)
      requires Valid() && fd in events
      modifies this`epoll, events[fd]
      ensures Valid() && (View(), err) == EventModel.Rewatch(old(View()), fd, fault)
    {
      var notifier := events[fd];
      var e := EpollCtl(WatchAdd(Watch(notifier.event, notifier)), fd, fault);
      if e.Some? {
        return Some(Syscall(e.value));
      }
      notifier.status := Alive;
      OneBoxWritten(fd);
      return None;
    }

    method ParkEvent(event: Notifier, f: Faults) returns (err: Option<Error>)
      requires Valid()
      modifies this`epoll, boxes
      ensures Valid() && (View(), err) == EventModel.ParkEvent(old(View()), event, f)
    {
      if event.rawFd !in events {
        return Some(NoRegisterFd(event.rawFd));
      }
      err := Unwatch(event.rawFd, f.first);
    }

    method ResumeEvent(event: Notifier, f: Faults) returns (err: Option<Error>)
      requires Valid()
      modifies this`epoll, boxes
      ensures Valid() && (View(), err) == EventModel.ResumeEvent(old(View()), event, f)
    {
      if event.rawFd !in events {
        return Some(NoRegisterFd(event.rawFd));
      }
      err := Rewatch(event.rawFd, f.first);
    }

    /** The flags of a registered descriptor are extended. */
    method Remask(fd: Fd, event: EventSet, fault: Fault) returns (err: Option<Error>)
      requires Valid() && fd in events
      modifies this`epoll, events[fd]
      ensures Valid() && (View(), err) == EventModel.Remask(old(View()), fd, event, fault)
      ensures events[fd].handlers == old(events[fd].handlers)
      ensures events[fd].event == if err.None? then old(events[fd].event) + event else old(events[fd].event)
    {
      var notifier := events[fd];
      if notifier.event != event {
        var e := EpollCtl(WatchModify(Watch(notifier.event + event, notifier)), fd, fault);
        if e.Some? {
          return Some(Syscall(e.value));
        }
        notifier.event := notifier.event + event;
        OneBoxWritten(fd);
      }
      return None;
    }

    method Merge(event: Notifier, f: Faults) returns (err: Option<Error>)
      requires Valid() && event.rawFd in events
      modifies this`epoll, events[event.rawFd]
      ensures Valid() && (View(), err) == EventModel.Merge(old(View()), event, f)
      ensures var b := events[event.rawFd];
              if err.None? then b.handlers == old(b.handlers) + event.handlers && b.event == old(b.event) + event.event
              else b.handlers == old(b.handlers) && b.event == old(b.event)
    {
      err := Remask(event.rawFd, event.event, f.first);
      if err.None? {
        SetHandlers(event.rawFd, events[event.rawFd].handlers + event.handlers);
      }
    }

    /** The part of `add_event` that parks the descriptor a new notifier displaces. */
    method Displace(parkedFd: Option<Fd>, f: Faults) returns (err: Option<Error>)
      requires Valid()
      modifies this`epoll, if parkedFd.Some? && parkedFd.value in events then {events[parkedFd.value]} else {}
      ensures Valid() && (View(), err) == EventModel.Displace(old(View()), parkedFd, f)
    {
      if parkedFd.None? {
        return None;
      }
      if parkedFd.value !in events {
        return Some(NoParkedFd(parkedFd.value));
      }
      err := Unwatch(parkedFd.value, f.second);
    }

    /** A notifier is boxed. */
    method MakeBox(event: Notifier) returns (notifier: EventNotifier)
      requires Valid()
      modifies this`boxes
      ensures Valid() && fresh(notifier) && Known(notifier)
      ensures notifier.View() == NewBox(event, old(View()).nextId)
      ensures View() == old(View()).(nextId := old(View()).nextId + 1)
      ensures Grown()
    {
      notifier := new EventNotifier(event, |boxes|);
      boxes := boxes + [notifier];
      assert EventsView() == old(EventsView()) && GcView() == old(GcView());
    }

    /** A new box is offered to the kernel. */
    method WatchNew(event: Notifier, fault: Fault) returns (notifier: EventNotifier, err: Option<int>)
      requires Valid()
      modifies this`epoll, this`boxes
      ensures Valid() && fresh(notifier) && Known(notifier) && Grown()
      ensures notifier.View() == NewBox(event, old(View()).nextId)
      ensures var s := old(View());
              var r := Ctl(s.epoll, CtlAdd(Entry(notifier.View())), event.rawFd, fault);
              View() == s.(epoll := r.0, nextId := s.nextId + 1) && err == r.1
    {
      notifier := MakeBox(event);
      err := EpollCtl(WatchAdd(Watch(notifier.event, notifier)), notifier.rawFd, fault);
    }

    /** A boxed notifier enters the registry. */
    method Enter(notifier: EventNotifier)
      requires Valid() && Known(notifier) && notifier.rawFd !in events
      requires notifier !in events.Values && notifier !in gc
      modifies this`events
      ensures Valid() && events == old(events)[notifier.rawFd := notifier]
      ensures View() == old(View()).(events := old(View()).events[notifier.rawFd := notifier.View()])
    {
      events := events[notifier.rawFd := notifier];
      assert EventsView() == old(EventsView())[notifier.rawFd := notifier.View()];
    }

    method AddFresh(event: Notifier, f: Faults) returns (err: Option<Error>)
      requires Valid() && event.rawFd !in events
      modifies this`epoll, this`events, this`boxes, boxes
      ensures Valid() && (View(), err) == EventModel.AddFresh(old(View()), event, f)
      ensures Grown()
    {
      var notifier, e := WatchNew(event, f.first);
      if e.Some? {
        return Some(Syscall(e.value));
      }
      assert forall fd :: fd in events ==> events[fd] in old(boxes);
      var e2 := Displace(notifier.parkedFd, f);
      if e2.Some? {
        return e2;
      }
      Enter(notifier);
      return None;
    }

    method AddEvent(event: Notifier, f: Faults) returns (err: Option<Error>)
      requires Valid()
      modifies this`epoll, this`events, this`boxes, boxes
      ensures Valid() && (View(), err) == EventModel.AddEvent(old(View()), event, f)
      ensures Grown()
    {
      if event.rawFd in events {
        if event.op.AddExclusion? {
          return Some(BadNotifierOperation);
        }
        err := Merge(event, f);
      } else {
        err := AddFresh(event, f);
      }
    }

    /** A box moves from the registry to the garbage list. */
    method Retire(fd: Fd)
      requires Valid() && fd in events
      modifies this`events, this`gc, events[fd]
      ensures Valid()
      ensures View() == EventModel.Retire(old(View()), fd)
      ensures events == old(events) - {fd}
    {
      var notifier := events[fd];
      events := events - {fd};
      notifier.status := Removed;
      gc := gc + [notifier];
      forall other | other in events
        ensures events[other].View() == old(EventsView())[other]
      {
        assert events[other] == old(events)[other];
      }
      assert EventsView() == old(EventsView()) - {fd};
      assert GcView() == old(GcView()) + [notifier.View()];
    }

    method RmEvent(event: Notifier, f: Faults) returns (err: Option<Error>)
      requires Valid()
      modifies this`epoll, this`events, this`gc, boxes
      ensures Valid() && (View(), err) == EventModel.RmEvent(old(View()), event, f)
    {
      if event.rawFd !in events {
        return Some(NoRegisterFd(event.rawFd));
      }
      ghost var s := View();
      var notifier := events[event.rawFd];
      var e := Drop(event.rawFd, f.first);
      if e.Some? && !Unwatched(e.value) {
        return Some(BadSyscall(e.value));
      }
      Retire(event.rawFd);
      assert View() == EventModel.Retire(EventModel.Drop(s, event.rawFd, f.first).0, event.rawFd);
      err := Unpark(notifier.parkedFd, f);
    }

    /** The first part of `RmEvent`: an Alive descriptor leaves the interest set. */
    method Drop(fd: Fd, fault: Fault) returns (e: Option<int>)
      requires Valid() && fd in events
      modifies this`epoll
      ensures Valid() && (View(), e) == EventModel.Drop(old(View()), fd, fault)
    {
      if events[fd].status == Alive {
        e := EpollCtl(WatchDelete, fd, fault);
      } else {
        e := None;
      }
    }

    /** The last part of `RmEvent`: the displaced descriptor is watched again. */
    method Unpark(parkedFd: Option<Fd>, f: Faults) returns (err: Option<Error>)
      requires Valid()
      modifies this`epoll, boxes
      ensures Valid() && (View(), err) == EventModel.Unpark(old(View()), parkedFd, f)
    {
      if parkedFd.None? {
        return None;
      }
      if parkedFd.value !in events {
        return Some(NoParkedFd(parkedFd.value));
      }
      err := Rewatch(parkedFd.value, f.second);
    }

    // ---- Update lists ----

    method Tick()
      modifies this`kicked, this`kickEvent
      ensures KickView() == Kick(true, Kicked(kickMe, old(kickEvent)))
      ensures kickMe ==> kickEvent > 0
      ensures kickMe && old(kickEvent) < 0xffff_ffff_ffff_fffe ==> kickEvent == old(kickEvent) + 1
      ensures !kickMe ==> kickEvent == old(kickEvent)
    {
      kicked := true;
      if kickMe {
        kickEvent := Written(kickEvent);  // a failed write is only logged
      }
    }

    /** Descriptors closed outside: the kernel drops their entries. */
    method Closed(fds: set<Fd>)
      requires Valid()
      modifies this`epoll
      ensures Valid() && View() == Shut(old(View()), fds)
    {
      if fds != {} {
        epoll := epoll - fds;
        assert EpollView() == old(EpollView()) - fds;
      }
    }

    method ApplyOne(en: Notifier, f: Faults) returns (err: Option<Error>)
      requires Valid()
      modifies this`epoll, this`events, this`gc, this`boxes, boxes
      ensures Valid() && (View(), err) == Apply(old(View()), en, f)
      ensures Grown()
    {
      match en.op {
        case AddExclusion => err := AddEvent(en, f);
        case AddShared => err := AddEvent(en, f);
        case Modify => err := ModifyEvent(en);
        case Park => err := ParkEvent(en, f);
        case Resume => err := ResumeEvent(en, f);
        case Delete => err := RmEvent(en, f);
      }
    }

    /** One operation, after what was closed before it. */
    method Undergo(en: Notifier, f: Faults) returns (err: Option<Error>)
      requires Valid()
      modifies this`epoll, this`events, this`gc, this`boxes, boxes
      ensures Valid() && (View(), err) == EventModel.Undergo(old(View()), en, f)
      ensures Grown()
    {
      Closed(f.closed);
      err := ApplyOne(en, f);
    }

    /** Operation `i` of a list; `at` says where the list stands before each operation. */
    method ApplyNext(notifiers: seq<Notifier>, i: nat, faults: seq<Faults>, ghost s: LoopState,
                     ghost at: nat -> (LoopState, Option<Error>))
      returns (err: Option<Error>)
      requires Valid() && i < |notifiers| && IsUpdate(at, s, notifiers, faults) && (View(), None) == at(i)
      modifies this`epoll, this`events, this`gc, this`boxes, boxes
      ensures Valid() && (View(), err) == at(if err.None? then i + 1 else |notifiers|)
      ensures Grown()
    {
      ghost var s1 := View();
      assert at(i) == UpdateTo(s, notifiers, i, faults);
      err := Undergo(notifiers[i], FaultsAt(faults, i));
      NextOrFailed(s, notifiers, i, faults, s1, (View(), err));
    }

    /** The list is applied up to its first failure. */
    method ApplyAll(notifiers: seq<Notifier>, faults: seq<Faults>, ghost s: LoopState,
                    ghost at: nat -> (LoopState, Option<Error>))
      returns (err: Option<Error>)
      requires Valid() && IsUpdate(at, s, notifiers, faults) && (View(), None) == at(0)
      modifies this`epoll, this`events, this`gc, this`boxes, boxes
      ensures Valid() && (View(), err) == at(|notifiers|)
      ensures Grown()
    {
      for i := 0 to |notifiers|
        invariant Valid() && (View(), None) == at(i)
        invariant Grown()
      {
        err := ApplyNext(notifiers, i, faults, s, at);
        if err.Some? {
          return;
        }
      }
      return None;
    }

    /** The loop is ticked only when the whole list succeeds. */
    method UpdateEvents(notifiers: seq<Notifier>, faults: seq<Faults>) returns (err: Option<Error>)
      requires Valid()
      modifies this`epoll, this`events, this`gc, this`boxes, this`kicked, this`kickEvent, boxes
      ensures Valid() && (View(), err) == EventModel.UpdateEvents(old(View()), notifiers, faults)
      ensures Grown()
      ensures KickView() == if err.None? then Kick(true, Kicked(kickMe, old(kickEvent))) else old(KickView())
    {
      ghost var s := View();
      ghost var at := UpdateTrace(s, notifiers, faults);
      assert at(0) == UpdateTo(s, notifiers, 0, faults);
      assert at(|notifiers|) == UpdateTo(s, notifiers, |notifiers|, faults);
      err := ApplyAll(notifiers, faults, s, at);
      if err.None? {
        Tick();
      }
    }

    // ---- Dispatch ----

    /** A pointer to a box that has not been freed is the box the loop has under that id. */
    lemma PointerIsBox(o: EventNotifier)
      requires Valid() && Known(o) && Allocated(View(), o.id)
      ensures o in events.Values || o in gc
      ensures BoxAt(View(), o.id) == Some(o.View())
    {
      var s := View();
      assert forall fd :: fd in events && s.events[fd].id == o.id ==> events[fd] == o;
      assert forall i :: 0 <= i < |gc| && s.gc[i].id == o.id ==> gc[i] == o;
    }

    /** The kernel reports events for the named descriptors. */
    method CollectReady(fds: seq<(Fd, EventSet)>) returns (ready: seq<Watch>)
      requires Valid()
      ensures Reports(ready) == Wait(EpollView(), fds)
      ensures forall w :: w in ready ==> Known(w.data)
    {
      ready := [];
      for i := |fds| downto 0
        invariant Valid() && Reports(ready) == Wait(EpollView(), fds[i..])
        invariant forall w :: w in ready ==> Known(w.data)
      {
        if fds[i].0 in epoll {
          var fd := fds[i].0;
          assert fd in epoll && Known(epoll[fd].data);
          var watch := Watch(fds[i].1, epoll[fd].data);
          assert Reports([watch] + ready) == [Ready(watch.mask, watch.data.id)] + Reports(ready);
          assert forall w :: w in [watch] + ready ==> w == watch || w in ready;
          ready := [watch] + ready;
        }
        assert fds[i..][1..] == fds[i + 1..];
      }
    }

    /** The handlers of an Alive notifier run in order; their requests are collected. */
    method RunHandlers(event: EventNotifier, mask: EventSet, i: nat, h: Callbacks) returns (notifiers: seq<Notifier>)
      modifies this`kickEvent
      ensures notifiers == if event.status.Alive? then Requests(h, i, event.handlers, mask, event.rawFd) else []
      ensures kickEvent == if event.status.Alive? && event.rawFd == own.fd && own.id in event.handlers then 0
                           else old(kickEvent)
    {
      notifiers := [];
      if event.status == Alive {
        for j := 0 to |event.handlers|
          invariant notifiers == Requests(h, i, event.handlers[..j], mask, event.rawFd)
          invariant kickEvent == if event.rawFd == own.fd && own.id in event.handlers[..j] then 0 else old(kickEvent)
        {
          if own == OwnHandler(event.rawFd, event.handlers[j]) {
            kickEvent := 0;  // the eventfd is read
          }
          var asked := h(i, j, event.handlers[j], mask, event.rawFd);
          if asked.Some? {
            notifiers := notifiers + asked.value;
          }
          assert event.handlers[..j + 1][..j] == event.handlers[..j];
        }
        assert event.handlers[..|event.handlers|] == event.handlers;
      }
    }

    /** The box of a reported event is read through the pointer, and its handlers run. */
    method AskHandlers(w: Watch, i: nat, h: Callbacks) returns (notifiers: seq<Notifier>)
      requires Valid() && Known(w.data) && Allocated(View(), w.data.id)
      modifies this`kickEvent
      ensures notifiers == Asked(View(), Ready(w.mask, w.data.id), i, h)
      ensures kickEvent == if Drains(View(), Ready(w.mask, w.data.id), own) then 0 else old(kickEvent)
    {
      PointerIsBox(w.data);
      assert w.data in events.Values || w.data in gc;  // the pointer does not dangle
      notifiers := RunHandlers(w.data, w.mask, i, h);
    }

    /** One reported event is served, and what its handlers ask for is applied. */
    method ServeEvent(w: Watch, i: nat, h: Callbacks, o: Outside)
      requires Valid() && Known(w.data) && Allocated(View(), w.data.id)
      modifies this`epoll, this`events, this`gc, this`boxes, this`kicked, this`kickEvent, boxes
      ensures Valid() && View() == Served(old(View()), Ready(w.mask, w.data.id), i, h, o)
      ensures KickView() ==
              KickStep(ServeEffect(old(View()), Ready(w.mask, w.data.id), i, h, o, own), kickMe, old(KickView()))
      ensures Grown()
    {
      ghost var s, r, kick := View(), Ready(w.mask, w.data.id), KickView();
      var notifiers := AskHandlers(w, i, h);
      Closed(o.closed);
      assert KickView() == if Drains(s, r, own) then kick.(counter := 0) else kick;
      var err := UpdateEvents(notifiers, o.faults);  // an error is only logged
      EntryServed(s, r, i, h, o, own, kickMe, kick, notifiers, (View(), err), KickView());
    }

    /** Entry `i` of a batch; `at` says where the batch stands before each entry. */
    method ServeEntry(w: Watch, i: nat, h: Callbacks, o: Outside, ghost b: Batch, ghost at: nat -> (LoopState, Kick))
      requires Valid() && Known(w.data) && IsDispatch(at, b, own, kickMe)
      requires i < |b.ready| && (View(), KickView()) == at(i)
      requires b.ready[i] == Ready(w.mask, w.data.id) && b.h == h && EnvAt(b.env, i) == o
      modifies this`epoll, this`events, this`gc, this`boxes, this`kicked, this`kickEvent, boxes
      ensures Valid() && (View(), KickView()) == at(i + 1)
      ensures Grown()
    {
      NextAt(at, b, i, own, kickMe);
      ServeEvent(w, i, h, o);
    }

    /** Handlers run for every reported event in turn, and what they ask for is applied before the next. */
    method DispatchReady(ready: seq<Watch>, h: Callbacks, env: seq<Outside>, ghost b: Batch,
                         ghost at: nat -> (LoopState, Kick))
      requires Valid() && (forall w :: w in ready ==> Known(w.data)) && IsDispatch(at, b, own, kickMe)
      requires b.ready == Reports(ready) && b.h == h && b.env == env && (View(), KickView()) == at(0)
      modifies this`epoll, this`events, this`gc, this`boxes, this`kicked, this`kickEvent, boxes
      ensures Valid() && (View(), KickView()) == at(|ready|)
      ensures Grown()
    {
      for i := 0 to |ready|
        invariant Valid() && (View(), KickView()) == at(i)
        invariant Grown()
      {
        ServeEntry(ready[i], i, h, EnvAt(env, i), b, at);
      }
    }

    /** A whole batch, as the kernel reported it. */
    method Dispatch(ready: seq<Watch>, ghost fds: seq<(Fd, EventSet)>, h: Callbacks, env: seq<Outside>)
      requires Valid() && (forall w :: w in ready ==> Known(w.data)) && IsReport(View(), fds, Reports(ready))
      modifies this`epoll, this`events, this`gc, this`boxes, this`kicked, this`kickEvent, boxes
      ensures Valid() && View() == Before(old(View()), Reports(ready), |ready|, h, env)
      ensures KickView() ==
              KickAfter(Effects(old(View()), Reports(ready), |ready|, h, env, own), kickMe, old(KickView()))
    {
      ghost var b := Batch(View(), KickView(), fds, Reports(ready), h, env);
      ghost var at := DispatchTrace(b, own, kickMe);
      assert at(0) == b.At(0, own, kickMe) && at(|ready|) == b.At(|ready|, own, kickMe);
      DispatchReady(ready, h, env, b, at);
    }

    /** Freed boxes are dropped from the front while at least as many remain. */
    method GcClean()
      requires Valid()
      modifies this`gc
      ensures Valid() && View() == EventDispatch.GcClean(old(View()))
    {
      var popNum := 0;
      while true
        invariant 2 * popNum <= |old(gc)| + 1 && popNum <= |old(gc)| && gc == old(gc)[popNum..]
        decreases |gc|
      {
        if popNum >= |gc| {
          break;
        }
        gc := gc[1..];
        popNum := popNum + 1;
      }
      assert popNum == (|old(gc)| + 1) / 2;
      assert GcView() == old(GcView())[popNum..];
    }

    // ---- Timers ----

    method TimerAdd(func: nat, delay: nat, now: nat, address: nat) returns (id: nat)
      modifies this`timers, this`kicked, this`kickEvent
      ensures id == address && timers == TimerModel.Insert(old(timers), Timer(id, func, now + delay))
      ensures KickView() == Kick(true, Kicked(kickMe, old(kickEvent)))
    {
      var timer := Timer(address, func, now + delay);
      var index := |timers|;
      for item := 0 to |timers|
        invariant index == |timers|
        invariant forall k :: 0 <= k < item ==> timers[k].expireTime <= timer.expireTime
      {
        if timer.expireTime < timers[item].expireTime {
          index := item;
          break;
        }
      }
      PlaceIs(timers, timer, index);
      timers := timers[..index] + [timer] + timers[index..];
      Tick();
      return address;
    }

    method TimerDel(id: nat)
      modifies this`timers
      ensures timers == TimerModel.Remove(old(timers), id)
    {
      for item := 0 to |timers|
        invariant timers == old(timers)
        invariant forall k :: 0 <= k < item ==> timers[k].id != id
      {
        if timers[item].id == id {
          RemoveFirst(timers, id, item);
          timers := timers[..item] + timers[item + 1..];
          return;
        }
      }
      RemoveNothing(timers, id);
    }

    method TimersMinDuration(now: nat) returns (d: Option<nat>)
      modifies this`kicked
      ensures !kicked && d == MinDuration(timers, now)
    {
      kicked := false;
      if |timers| == 0 {
        return None;
      }
      return Some(if timers[0].expireTime > now then timers[0].expireTime - now else 0);
    }

    /** Returns the timers whose callbacks were called, in order. */
    method RunTimers(now: nat) returns (ran: seq<Timer>)
      modifies this`timers
      ensures var n := Due(old(timers), now); timers == old(timers)[n..] && ran == old(timers)[..n]
    {
      var expiredNr := 0;
      for i := 0 to |timers|
        invariant expiredNr == i
        invariant forall k :: 0 <= k < i ==> timers[k].expireTime <= now
      {
        if timers[i].expireTime > now {
          break;
        }
        expiredNr := expiredNr + 1;
      }
      DueIs(timers, now, expiredNr);
      ran := timers[..expiredNr];
      timers := timers[expiredNr..];
    }

    // ---- One turn of the loop ----

    /** What follows a successful wait: dispatch, timers, garbage. */
    method Serve(ready: seq<Watch>, ghost fds: seq<(Fd, EventSet)>, h: Callbacks, env: seq<Outside>, now: nat)
      returns (ran: seq<Timer>)
      requires Valid() && (forall w :: w in ready ==> Known(w.data)) && IsReport(View(), fds, Reports(ready))
      modifies this`epoll, this`events, this`gc, this`boxes, this`kicked, this`kickEvent, this`timers, boxes
      ensures Valid() && View() == Iterate(old(View()), fds, h, env)
      ensures KickView() ==
              KickAfter(Effects(old(View()), Reports(ready), |ready|, h, env, own), kickMe, old(KickView()))
      ensures ran == old(timers)[..Due(old(timers), now)] && timers == old(timers)[Due(old(timers), now)..]
    {
      Dispatch(ready, fds, h, env);
      ran := RunTimers(now);
      GcClean();
    }

    /** Before a real wait: ask to be kicked, and give the wait up if a tick has already come. */
    method AnnounceWait(timeOut: Option<nat>) returns (needKc: bool, timeout: Option<nat>)
      modifies this`kickMe
      ensures needKc == (timeOut != Some(0)) && kickMe == (old(kickMe) || needKc)
      ensures timeout == if needKc && kicked then Some(0) else timeOut
    {
      timeout := timeOut;
      needKc := !(timeout.Some? && timeout.value == 0);
      if needKc {
        kickMe := true;
        if kicked {
          timeout := Some(0);
        }
      }
    }

    /** The wait itself; `poll` and `wait` are what the two system calls do. Returns what the kernel reported, and how
        long the loop was willing to wait: the timeout of the first call if it was made, and the milliseconds of the
        second. A real wait takes place only if no tick came since the last reset. */
    method WaitForEvents(timeOut: Option<nat>, poll: PollOutcome, wait: WaitOutcome)
      returns (ready: Result<seq<Watch>, Error>, slept: Option<nat>, waitMs: int)
      requires Valid()
      modifies this`kickMe
      ensures slept == WakeUp.PolledFor(timeOut, kicked) && waitMs == WakeUp.WaitMs(timeOut, kicked)
      ensures slept == if kicked || timeOut == Some(0) then None else timeOut
      ensures waitMs == 0 || (waitMs == -1 && timeOut.None? && !kicked)
      ensures if slept.Some? && poll.PollFailed? then ready == Err(EpollWait(poll.errno))
              else if wait.WaitFailed? then ready == Err(EpollWait(wait.errno))
              else ready.Ok? && Reports(ready.value) == Wait(EpollView(), wait.Fds())
                   && forall w :: w in ready.value ==> Known(w.data)
      ensures kickMe == WakeUp.KickMeAfter(old(kickMe), timeOut, ready.Ok?)
    {
      slept := None;
      var needKc, timeout := AnnounceWait(timeOut);
      if timeout.Some? && timeout.value != 0 {
        slept := timeout;
        match poll {
          case Polled => timeout := Some(0);
          case PollInterrupted => timeout := Some(0);
          case PollFailed(errno) => return Err(EpollWait(errno)), slept, 0;
        }
      }
      waitMs := if timeout.None? then -1 else timeout.value / 1_000_000;
      if wait.WaitFailed? {
        return Err(EpollWait(wait.errno)), slept, waitMs;
      }
      var reported := CollectReady(wait.Fds());
      if needKc {
        kickMe := false;
      }
      return Ok(reported), slept, waitMs;
    }

    /** One turn of the loop after its timeout is known. */
    method EpollWaitManager(timeOut: Option<nat>, poll: PollOutcome, wait: WaitOutcome, h: Callbacks,
                            env: seq<Outside>, now: nat)
      returns (r: Result<bool, Error>, ran: seq<Timer>)
      requires Valid() && Inv(View()) && Orphans(View()) == {}
      modifies this, boxes
      ensures Valid()
      ensures r.Err? <==> wait.WaitFailed? || (poll.PollFailed? && timeOut.Some? && timeOut != Some(0) && !old(kicked))
      ensures kickMe == WakeUp.KickMeAfter(old(kickMe), timeOut, r.Ok?)
      ensures r.Err? ==> View() == old(View()) && timers == old(timers) && ran == [] && KickView() == old(KickView())
      ensures r.Ok? ==> r.value && View() == Iterate(old(View()), wait.Fds(), h, env)
      ensures r.Ok? ==>
                var s, batch := old(View()), Wait(old(View()).epoll, wait.Fds());
                KickView() == KickAfter(Effects(s, batch, |batch|, h, env, own), kickMe, old(KickView()))
      ensures r.Ok? ==> ran == old(timers)[..Due(old(timers), now)] && timers == old(timers)[Due(old(timers), now)..]
    {
      var ready, slept, waitMs := WaitForEvents(timeOut, poll, wait);
      if ready.Err? {
        return Err(ready.error), [];
      }
      ran := Serve(ready.value, wait.Fds(), h, env, now);
      r := Ok(true);
    }
  }

  /** One entry in the order the loop goes about it. */
  lemma EntryServed(s: LoopState, r: Ready, i: nat, h: Callbacks, o: Outside, own: OwnHandler, kickMe: bool, kick: Kick,
                    asked: seq<Notifier>, outcome: (LoopState, Option<Error>), kick': Kick)
    requires asked == Asked(s, r, i, h) && outcome == UpdateEvents(Shut(s, o.closed), asked, o.faults)
    requires var counter := if Drains(s, r, own) then 0 else kick.counter;
             kick' == if outcome.1.None? then Kick(true, Kicked(kickMe, counter)) else kick.(counter := counter)
    ensures outcome.0 == Served(s, r, i, h, o) && kick' == KickStep(ServeEffect(s, r, i, h, o, own), kickMe, kick)
  {
    assert outcome == ServeOutcome(s, r, i, h, o);
  }

  // ---- Traces ----

  /** `at` runs through the states of an update list. */
  ghost predicate IsUpdate(at: nat -> (LoopState, Option<Error>), s: LoopState, ns: seq<Notifier>,
                           faults: seq<Faults>)
  {
    forall k: nat {:trigger UpdateTo(s, ns, k, faults)} :: k <= |ns| ==> at(k) == UpdateTo(s, ns, k, faults)
  }

  ghost function UpdateTrace(s: LoopState, ns: seq<Notifier>, faults: seq<Faults>)
    : (at: nat -> (LoopState, Option<Error>))
    ensures IsUpdate(at, s, ns, faults)
  {
    (k: nat) => if k <= |ns| then UpdateTo(s, ns, k, faults) else (s, None)
  }

  /** A batch of events: where the loop stood at the wait, what the kernel reported, and the environment. */
  datatype Batch = Batch(s: LoopState, kick: Kick, fds: seq<(Fd, EventSet)>, ready: seq<Ready>, h: Callbacks,
                         env: seq<Outside>)
  {
    /** Where the loop stands before entry `k`. */
    ghost function At(k: nat, own: OwnHandler, kickMe: bool): (LoopState, Kick)
      requires k <= |ready|
    {
      (Before(s, ready, k, h, env), KickAfter(Effects(s, ready, k, h, env, own), kickMe, kick))
    }
  }

  /** `at` runs through the states of a batch reported to a loop without orphans. */
  ghost predicate IsDispatch(at: nat -> (LoopState, Kick), b: Batch, own: OwnHandler, kickMe: bool) {
    && IsReport(b.s, b.fds, b.ready)
    && forall k: nat {:trigger b.At(k, own, kickMe)} :: k <= |b.ready| ==> at(k) == b.At(k, own, kickMe)
  }

  lemma NextAt(at: nat -> (LoopState, Kick), b: Batch, k: nat, own: OwnHandler, kickMe: bool)
    requires IsDispatch(at, b, own, kickMe) && k < |b.ready|
    ensures Allocated(at(k).0, b.ready[k].data)
    ensures var s, r, o := at(k).0, b.ready[k], EnvAt(b.env, k);
            at(k + 1) == (Served(s, r, k, b.h, o), KickStep(ServeEffect(s, r, k, b.h, o, own), kickMe, at(k).1))
  {
    assert at(k) == b.At(k, own, kickMe) && at(k + 1) == b.At(k + 1, own, kickMe);
    SafeEntry(b.s, b.fds, k, b.h, b.env);
  }

  ghost function DispatchTrace(b: Batch, own: OwnHandler, kickMe: bool): (at: nat -> (LoopState, Kick))
    requires IsReport(b.s, b.fds, b.ready)
    ensures IsDispatch(at, b, own, kickMe)
  {
    (k: nat) => if k <= |b.ready| then b.At(k, own, kickMe) else (b.s, b.kick)
  }

  datatype PollOutcome = Polled | PollInterrupted | PollFailed(errno: int)
  datatype WaitOutcome = Reported(fds: seq<(Fd, EventSet)>) | WaitInterrupted | WaitFailed(errno: int) {
    function Fds(): seq<(Fd, EventSet)> {
      if Reported? then fds else []
    }
  }

  /** Reported events with the pointer replaced by the box's id. */
  ghost function Reports(ready: seq<Watch>): seq<Ready> {
    seq(|ready|, i requires 0 <= i < |ready| => Ready(ready[i].mask, ready[i].data.id))
  }
}
