/** What the event loop's registry and the kernel's interest set hold, and what one operation does to them. */
module EventModel {
  import opened Results

  type Fd = int
  type EventSet = set<nat>   // epoll flags, by bit number; `|` is union
  type HandlerId = nat       // a callback

  datatype NotifierOperation = AddExclusion | AddShared | Modify | Delete | Park | Resume
  datatype EventStatus = Alive | Parked | Removed

  /** A notifier on its way to the loop, passed by value. */
  datatype Notifier = Notifier(op: NotifierOperation, rawFd: Fd, parkedFd: Option<Fd>, event: EventSet,
                               handlers: seq<HandlerId>)

  /** What a notifier boxed by the loop holds; `id` stands for the address of the box. */
  datatype Box = Box(id: nat, rawFd: Fd, parkedFd: Option<Fd>, event: EventSet, handlers: seq<HandlerId>,
                     status: EventStatus)

  /** One entry of the kernel's interest set: the mask, and the address handed over as user data. */
  datatype KernelEntry = KernelEntry(mask: EventSet, data: nat)

  datatype LoopState = LoopState(events: map<Fd, Box>, gc: seq<Box>, epoll: map<Fd, KernelEntry>, nextId: nat)

  datatype Error =
    | BadNotifierOperation
    | NoParkedFd(fd: Fd)
    | NoRegisterFd(fd: Fd)
    | Syscall(errno: int)      // a failing epoll_ctl passed on as it is
    | BadSyscall(errno: int)
    | EpollWait(errno: int)

  // ---- epoll_ctl ----

  const EPERM := 1
  const ENOENT := 2
  const EBADF := 9
  const EEXIST := 17

  /** The codes that mean, in answer to a deletion, that the kernel does not watch the descriptor. */
  predicate Unwatched(errno: int) {
    errno == EBADF || errno == ENOENT || errno == EPERM
  }

  /** A failure of one call for reasons of its own (a closed descriptor, memory, limits, ...). */
  type Fault = Option<int>

  /** What befalls one operation from outside: descriptors closed since the operation before, and a fault for each of
      its calls, which are two at most. They concern different descriptors, so that a descriptor closed between the
      calls might as well have been closed before the operation or after it. */
  datatype Faults = Faults(closed: set<Fd>, first: Fault, second: Fault)

  const NO_FAULTS := Faults({}, None, None)

  datatype Command = CtlAdd(entry: KernelEntry) | CtlModify(entry: KernelEntry) | CtlDelete

  /** The call fails for reasons of its own, without effect. A deletion never claims that a watched descriptor is not
      watched. */
  predicate Strikes(fault: Fault, deleting: bool) {
    fault.Some? && !(deleting && Unwatched(fault.value))
  }

  /** The interest set after one call, and the error if it failed. */
  function Ctl(epoll: map<Fd, KernelEntry>, command: Command, fd: Fd, fault: Fault)
    : (map<Fd, KernelEntry>, Option<int>)
  {
    if Strikes(fault, command.CtlDelete?) then (epoll, fault)
    else match command
      case CtlAdd(entry) => if fd in epoll then (epoll, Some(EEXIST)) else (epoll[fd := entry], None)
      case CtlModify(entry) => if fd in epoll then (epoll[fd := entry], None) else (epoll, Some(ENOENT))
      case CtlDelete => if fd in epoll then (epoll - {fd}, None) else (epoll, Some(ENOENT))
  }

  /** The last descriptors of some files are closed: the kernel drops their entries by itself. */
  function Shut(s: LoopState, closed: set<Fd>): LoopState {
    if closed == {} then s else s.(epoll := s.epoll - closed)
  }

  // ---- The five operations ----

  function Entry(b: Box): KernelEntry {
    KernelEntry(b.event, b.id)
  }

  function NewBox(n: Notifier, id: nat): Box {
    Box(id, n.rawFd, n.parkedFd, n.event, n.handlers, Alive)
  }

  function WithHandlers(s: LoopState, fd: Fd, handlers: seq<HandlerId>): LoopState
    requires fd in s.events
  {
    s.(events := s.events[fd := s.events[fd].(handlers := handlers)])
  }

  /** The flags of a registered descriptor are extended. */
  function Remask(s: LoopState, fd: Fd, event: EventSet, fault: Fault): (LoopState, Option<Error>)
    requires fd in s.events
  {
    if s.events[fd].event == event then (s, None)
    else
      var b := s.events[fd].(event := s.events[fd].event + event);
      var (epoll, err) := Ctl(s.epoll, CtlModify(Entry(b)), fd, fault);
      if err.Some? then (s, Some(Syscall(err.value))) else (s.(epoll := epoll, events := s.events[fd := b]), None)
  }

  function Merge(s: LoopState, n: Notifier, f: Faults): (LoopState, Option<Error>)
    requires n.rawFd in s.events
  {
    var (s1, err) := Remask(s, n.rawFd, n.event, f.first);
    if err.Some? then (s1, err) else (WithHandlers(s1, n.rawFd, s1.events[n.rawFd].handlers + n.handlers), None)
  }

  /** A registered descriptor is watched no longer. */
  function Unwatch(s: LoopState, fd: Fd, fault: Fault): (LoopState, Option<Error>)
    requires fd in s.events
  {
    var (epoll, err) := Ctl(s.epoll, CtlDelete, fd, fault);
    if err.Some? then (s, Some(Syscall(err.value)))
    else (s.(epoll := epoll, events := s.events[fd := s.events[fd].(status := Parked)]), None)
  }

  /** A registered descriptor is watched again. */
  function Rewatch(s: LoopState, fd: Fd, fault: Fault): (LoopState, Option<Error>)
    requires fd in s.events
  {
    var (epoll, err) := Ctl(s.epoll, CtlAdd(Entry(s.events[fd])), fd, fault);
    if err.Some? then (s, Some(Syscall(err.value)))
    else (s.(epoll := epoll, events := s.events[fd := s.events[fd].(status := Alive)]), None)
  }

  /** The descriptor a new notifier displaces is watched no longer. */
  function Displace(s: LoopState, parkedFd: Option<Fd>, f: Faults): (LoopState, Option<Error>) {
    if parkedFd.None? then (s, None)
    else if parkedFd.value !in s.events then (s, Some(NoParkedFd(parkedFd.value)))
    else Unwatch(s, parkedFd.value, f.second)
  }

  function AddFresh(s: LoopState, n: Notifier, f: Faults): (LoopState, Option<Error>) {
    var b := NewBox(n, s.nextId);
    var (epoll, err) := Ctl(s.epoll, CtlAdd(Entry(b)), n.rawFd, f.first);
    if err.Some? then (s.(nextId := s.nextId + 1), Some(Syscall(err.value)))
    else
      var (s1, err1) := Displace(s.(epoll := epoll, nextId := s.nextId + 1), n.parkedFd, f);
      if err1.Some? then (s1, err1) else (s1.(events := s1.events[n.rawFd := b]), None)
  }

  function AddEvent(s: LoopState, n: Notifier, f: Faults): (LoopState, Option<Error>) {
    if n.rawFd !in s.events then AddFresh(s, n, f)
    else if n.op.AddExclusion? then (s, Some(BadNotifierOperation))
    else Merge(s, n, f)
  }

  function ModifyEvent(s: LoopState, n: Notifier): (LoopState, Option<Error>) {
    if n.rawFd !in s.events then (s, Some(NoRegisterFd(n.rawFd)))
    else (WithHandlers(s, n.rawFd, n.handlers), None)
  }

  function ParkEvent(s: LoopState, n: Notifier, f: Faults): (LoopState, Option<Error>) {
    if n.rawFd !in s.events then (s, Some(NoRegisterFd(n.rawFd))) else Unwatch(s, n.rawFd, f.first)
  }

  function ResumeEvent(s: LoopState, n: Notifier, f: Faults): (LoopState, Option<Error>) {
    if n.rawFd !in s.events then (s, Some(NoRegisterFd(n.rawFd))) else Rewatch(s, n.rawFd, f.first)
  }

  /** The descriptor a removed notifier had displaced is watched again. */
  function Unpark(s: LoopState, parkedFd: Option<Fd>, f: Faults): (LoopState, Option<Error>) {
    if parkedFd.None? then (s, None)
    else if parkedFd.value !in s.events then (s, Some(NoParkedFd(parkedFd.value)))
    else Rewatch(s, parkedFd.value, f.second)
  }

  /** A box moves from the registry to the garbage. */
  function Retire(s: LoopState, fd: Fd): LoopState
    requires fd in s.events
  {
    s.(events := s.events - {fd}, gc := s.gc + [s.events[fd].(status := Removed)])
  }

  /** An Alive descriptor leaves the interest set. */
  function Drop(s: LoopState, fd: Fd, fault: Fault): (LoopState, Option<int>)
    requires fd in s.events
  {
    if s.events[fd].status.Alive? then var (epoll, err) := Ctl(s.epoll, CtlDelete, fd, fault); (s.(epoll := epoll), err)
    else (s, None)
  }

  function RmEvent(s: LoopState, n: Notifier, f: Faults): (LoopState, Option<Error>) {
    if n.rawFd !in s.events then (s, Some(NoRegisterFd(n.rawFd)))
    else
      var (s1, err) := Drop(s, n.rawFd, f.first);
      if err.Some? && !Unwatched(err.value) then (s, Some(BadSyscall(err.value)))
      else Unpark(Retire(s1, n.rawFd), s.events[n.rawFd].parkedFd, f)
  }

  function Apply(s: LoopState, n: Notifier, f: Faults): (LoopState, Option<Error>) {
    match n.op
    case AddExclusion => AddEvent(s, n, f)
    case AddShared => AddEvent(s, n, f)
    case Modify => ModifyEvent(s, n)
    case Park => ParkEvent(s, n, f)
    case Resume => ResumeEvent(s, n, f)
    case Delete => RmEvent(s, n, f)
  }

  /** The faults that meet the `i`th operation of a list; none beyond the end. */
  function FaultsAt(faults: seq<Faults>, i: nat): Faults {
    if i < |faults| then faults[i] else NO_FAULTS
  }

  /** One operation and what befalls it. */
  function Undergo(s: LoopState, n: Notifier, f: Faults): (LoopState, Option<Error>) {
    Apply(Shut(s, f.closed), n, f)
  }

  /** The first `k` operations of the list in turn, stopping after the first that fails. */
  function UpdateTo(s: LoopState, ns: seq<Notifier>, k: nat, faults: seq<Faults>): (LoopState, Option<Error>)
    requires k <= |ns|
  {
    if k == 0 then (s, None)
    else
      var (s1, err) := UpdateTo(s, ns, k - 1, faults);
      if err.Some? then (s1, err) else Undergo(s1, ns[k - 1], FaultsAt(faults, k - 1))
  }

  function UpdateEvents(s: LoopState, ns: seq<Notifier>, faults: seq<Faults>): (LoopState, Option<Error>) {
    UpdateTo(s, ns, |ns|, faults)
  }

  // ---- Invariants ----

  /** A watched descriptor of the registry is Alive, and the kernel holds its very mask and box. */
  ghost predicate Agree(s: LoopState) {
    && (forall fd :: fd in s.events ==>
          s.events[fd].rawFd == fd && !s.events[fd].status.Removed? && s.events[fd].id < s.nextId)
    && (forall fd :: fd in s.events && fd in s.epoll ==>
          s.events[fd].status.Alive? && s.epoll[fd] == Entry(s.events[fd]))
    && (forall fd, fd' :: fd in s.events && fd' in s.events && fd != fd' ==> s.events[fd].id != s.events[fd'].id)
    && (forall i :: 0 <= i < |s.gc| ==> s.gc[i].status.Removed? && s.gc[i].id < s.nextId)
    && (forall i, fd :: 0 <= i < |s.gc| && fd in s.events ==> s.gc[i].id != s.events[fd].id)
  }

  /** Registered Alive, yet not watched: the descriptor was closed behind the loop's back. */
  ghost function Lost(s: LoopState): set<Fd> {
    set fd | fd in s.events && s.events[fd].status.Alive? && fd !in s.epoll
  }

  /** Watched by the kernel, yet not in the registry. */
  ghost function Orphans(s: LoopState): set<Fd> {
    s.epoll.Keys - s.events.Keys
  }

  ghost function AliveFds(s: LoopState): set<Fd> {
    set fd | fd in s.events && s.events[fd].status.Alive?
  }

  /** The boxes that have not been freed. */
  ghost predicate Allocated(s: LoopState, id: nat) {
    (exists fd :: fd in s.events && s.events[fd].id == id) || (exists i :: 0 <= i < |s.gc| && s.gc[i].id == id)
  }

  /** The box of an orphan was freed when its registration failed. */
  ghost predicate OrphansDangle(s: LoopState) {
    forall fd :: fd in s.epoll && fd !in s.events ==> !Allocated(s, s.epoll[fd].data) && s.epoll[fd].data < s.nextId
  }

  ghost predicate Inv(s: LoopState) {
    Agree(s) && OrphansDangle(s)
  }

  const EMPTY := LoopState(map[], [], map[], 0)

  type Consistent = s: LoopState | Inv(s) ghost witness EMPTY
}
