/** One pass over the events the kernel reported: handlers run, and what they ask for is applied at once. */
module EventDispatch {
  import opened Results
  import opened EventModel
  import opened EventLaws
  import opened EventFd

  /** What a callback answers, by the position in the batch and among the notifier's handlers: any function of
      (mask, descriptor). */
  type Callbacks = (nat, nat, HandlerId, EventSet, Fd) -> Option<seq<Notifier>>

  /** One reported event: the mask, and the address handed over at registration. */
  datatype Ready = Ready(mask: EventSet, data: nat)

  /** Everything the handlers of one notifier ask for, in handler order. */
  function Requests(h: Callbacks, i: nat, handlers: seq<HandlerId>, mask: EventSet, fd: Fd): seq<Notifier> {
    if handlers == [] then []
    else
      var last := |handlers| - 1;
      var asked := h(i, last, handlers[last], mask, fd);
      Requests(h, i, handlers[..last], mask, fd) + if asked.Some? then asked.value else []
  }

  /** The box at an address, while it has not been freed. */
  ghost function BoxAt(s: LoopState, id: nat): Option<Box> {
    if exists fd :: fd in s.events && s.events[fd].id == id then
      var fd :| fd in s.events && s.events[fd].id == id; Some(s.events[fd])
    else if exists i :: 0 <= i < |s.gc| && s.gc[i].id == id then
      var i :| 0 <= i < |s.gc| && s.gc[i].id == id; Some(s.gc[i])
    else None
  }

  /** The handlers that run for a reported event. */
  ghost function HandlersRun(s: LoopState, r: Ready): seq<HandlerId> {
    match BoxAt(s, r.data)
    case Some(b) => if b.status.Alive? then b.handlers else []
    case None => []
  }

  ghost function Asked(s: LoopState, r: Ready, i: nat, h: Callbacks): seq<Notifier> {
    match BoxAt(s, r.data)
    case Some(b) => Requests(h, i, HandlersRun(s, r), r.mask, b.rawFd)
    case None => []
  }

  /** What befalls one entry of a batch from outside: descriptors closed until its handlers are through, by them or by
      other threads, and what befalls the operations they ask for. */
  datatype Outside = Outside(closed: set<Fd>, faults: seq<Faults>)

  function EnvAt(env: seq<Outside>, i: nat): Outside {
    if i < |env| then env[i] else Outside({}, [])
  }

  /** One reported event is served. */
  ghost function ServeOutcome(s: LoopState, r: Ready, i: nat, h: Callbacks, o: Outside): (LoopState, Option<Error>) {
    UpdateEvents(Shut(s, o.closed), Asked(s, r, i, h), o.faults)
  }

  ghost function Served(s: LoopState, r: Ready, i: nat, h: Callbacks, o: Outside): LoopState {
    ServeOutcome(s, r, i, h, o).0
  }

  /** The registry when the `k`th entry of the batch is taken up. */
  ghost function Before(s: LoopState, batch: seq<Ready>, k: nat, h: Callbacks, env: seq<Outside>): LoopState
    requires k <= |batch|
  {
    if k == 0 then s
    else Served(Before(s, batch, k - 1, h, env), batch[k - 1], k - 1, h, EnvAt(env, k - 1))
  }

  /** What `epoll_wait` reports for the named descriptors. */
  function Wait(epoll: map<Fd, KernelEntry>, fds: seq<(Fd, EventSet)>): seq<Ready> {
    if fds == [] then []
    else (if fds[0].0 in epoll then [Ready(fds[0].1, epoll[fds[0].0].data)] else []) + Wait(epoll, fds[1..])
  }

  /** Half of the garbage, rounded up, is freed from the front. */
  function GcClean(s: LoopState): LoopState {
    s.(gc := s.gc[(|s.gc| + 1) / 2..])
  }

  /** One turn of the loop. */
  ghost function Iterate(s: LoopState, fds: seq<(Fd, EventSet)>, h: Callbacks, env: seq<Outside>): LoopState {
    var batch := Wait(s.epoll, fds);
    GcClean(Before(s, batch, |batch|, h, env))
  }

  // ---- Addresses ----

  lemma BoxAtEvents(s: LoopState, fd: Fd)
    requires Agree(s) && fd in s.events
    ensures BoxAt(s, s.events[fd].id) == Some(s.events[fd])
  {
  }

  lemma BoxAtGc(s: LoopState, i: nat)
    requires Agree(s) && i < |s.gc|
    ensures BoxAt(s, s.gc[i].id).Some? && BoxAt(s, s.gc[i].id).value.status.Removed?
  {
    assert !exists fd :: fd in s.events && s.events[fd].id == s.gc[i].id;
  }

  // ---- Whole lists and whole batches keep the invariant ----

  lemma {:induction false} UpdateHolds(s: LoopState, ns: seq<Notifier>, k: nat, faults: seq<Faults>)
    requires Inv(s) && k <= |ns|
    ensures Follows(s, UpdateTo(s, ns, k, faults).0)
  {
    if k > 0 {
      UpdateHolds(s, ns, k - 1, faults);
      var (s1, err) := UpdateTo(s, ns, k - 1, faults);
      if err.None? {
        UndergoHolds(s1, ns[k - 1], FaultsAt(faults, k - 1));
        FollowsOn(s, s1, UpdateTo(s, ns, k, faults).0);
      }
    }
  }

  /** What was returned after a failure is returned from then on. */
  lemma {:induction false} Frozen(out: nat -> (LoopState, Option<Error>), k: nat, m: nat)
    requires k <= m && out(k).1.Some?
    requires forall i: nat :: k <= i < m && out(i).1.Some? ==> out(i + 1) == out(i)
    ensures out(m) == out(k)
  {
    if k < m {
      Frozen(out, k, m - 1);
    }
  }

  lemma AfterFailure(s: LoopState, ns: seq<Notifier>, k: nat, faults: seq<Faults>)
    requires k < |ns| && UpdateTo(s, ns, k, faults).1.Some?
    ensures UpdateTo(s, ns, k + 1, faults) == UpdateTo(s, ns, k, faults)
  {
  }

  lemma AfterSuccess(s: LoopState, ns: seq<Notifier>, k: nat, faults: seq<Faults>)
    requires k < |ns| && UpdateTo(s, ns, k, faults).1.None?
    ensures UpdateTo(s, ns, k + 1, faults) == Undergo(UpdateTo(s, ns, k, faults).0, ns[k], FaultsAt(faults, k))
  {
  }

  /** After a failure nothing further is applied. */
  lemma StaysFailed(s: LoopState, ns: seq<Notifier>, k: nat, m: nat, faults: seq<Faults>)
    requires k <= m <= |ns| && UpdateTo(s, ns, k, faults).1.Some?
    ensures UpdateTo(s, ns, m, faults) == UpdateTo(s, ns, k, faults)
  {
    var out := (i: nat) => if i <= |ns| then UpdateTo(s, ns, i, faults) else (s, None);
    forall i: nat | k <= i < m && out(i).1.Some? ensures out(i + 1) == out(i) {
      AfterFailure(s, ns, i, faults);
    }
    Frozen(out, k, m);
  }

  /** After operation `k` the list stands at its next operation, or is over. */
  lemma NextOrFailed(s: LoopState, ns: seq<Notifier>, k: nat, faults: seq<Faults>, s1: LoopState,
                     r: (LoopState, Option<Error>))
    requires k < |ns| && UpdateTo(s, ns, k, faults) == (s1, None) && r == Undergo(s1, ns[k], FaultsAt(faults, k))
    ensures r == UpdateTo(s, ns, if r.1.None? then k + 1 else |ns|, faults)
  {
    AfterSuccess(s, ns, k, faults);
    if r.1.Some? {
      StaysFailed(s, ns, k + 1, |ns|, faults);
    }
  }

  lemma UndergoHolds(s: LoopState, n: Notifier, f: Faults)
    requires Inv(s)
    ensures Follows(s, Undergo(s, n, f).0)
  {
    ShutHolds(s, f.closed);
    ApplyHolds(Shut(s, f.closed), n, f);
    FollowsOn(s, Shut(s, f.closed), Undergo(s, n, f).0);
  }

  lemma ServeHolds(s: LoopState, r: Ready, i: nat, h: Callbacks, o: Outside)
    requires Inv(s)
    ensures Follows(s, Served(s, r, i, h, o))
  {
    var asked := Asked(s, r, i, h);
    ShutHolds(s, o.closed);
    UpdateHolds(Shut(s, o.closed), asked, |asked|, o.faults);
    FollowsOn(s, Shut(s, o.closed), Served(s, r, i, h, o));
  }

  lemma EntryHolds(s: LoopState, batch: seq<Ready>, k: nat, h: Callbacks, env: seq<Outside>)
    requires k < |batch| && Inv(Before(s, batch, k, h, env))
    ensures Follows(Before(s, batch, k, h, env), Before(s, batch, k + 1, h, env))
  {
    ServeHolds(Before(s, batch, k, h, env), batch[k], k, h, EnvAt(env, k));
  }

  lemma NoStepHolds(s: LoopState)
    requires Inv(s)
    ensures Follows(s, s)
  {
  }

  lemma {:induction false} BatchInv(s: LoopState, batch: seq<Ready>, k: nat, h: Callbacks, env: seq<Outside>)
    requires Inv(s) && k <= |batch|
    ensures Inv(Before(s, batch, k, h, env))
  {
    if k > 0 {
      BatchInv(s, batch, k - 1, h, env);
      EntryHolds(s, batch, k - 1, h, env);
    }
  }

  lemma {:induction false} BatchHolds(s: LoopState, batch: seq<Ready>, j: nat, k: nat, h: Callbacks, env: seq<Outside>)
    requires Inv(s) && j <= k <= |batch|
    ensures Follows(Before(s, batch, j, h, env), Before(s, batch, k, h, env))
    decreases k - j
  {
    BatchInv(s, batch, j, h, env);
    if j == k {
      NoStepHolds(Before(s, batch, j, h, env));
    } else {
      EntryHolds(s, batch, j, h, env);
      BatchHolds(s, batch, j + 1, k, h, env);
      FollowsOn(Before(s, batch, j, h, env), Before(s, batch, j + 1, h, env), Before(s, batch, k, h, env));
    }
  }

  // ---- Dispatch safety ----

  /** Every entry comes from the interest set as it was at the wait. */
  lemma {:induction false} WaitReports(epoll: map<Fd, KernelEntry>, fds: seq<(Fd, EventSet)>, k: nat) returns (fd: Fd)
    requires k < |Wait(epoll, fds)|
    ensures fd in epoll && epoll[fd].data == Wait(epoll, fds)[k].data
  {
    var rest := k - if fds[0].0 in epoll then 1 else 0;
    if rest < 0 {
      fd := fds[0].0;
    } else {
      fd := WaitReports(epoll, fds[1..], rest);
    }
  }

  /** An entry reported for `fd` is usable when its turn comes exactly if `fd` was no orphan at the wait:
      whatever the handlers before it did, its box has not been freed. */
  lemma DispatchSafety(s: LoopState, batch: seq<Ready>, k: nat, h: Callbacks, env: seq<Outside>, fd: Fd)
    requires Inv(s) && k < |batch| && fd in s.epoll && batch[k].data == s.epoll[fd].data
    ensures Allocated(Before(s, batch, k, h, env), batch[k].data) <==> fd !in Orphans(s)
  {
    BatchHolds(s, batch, 0, k, h, env);
    if fd in s.events {
      assert s.events[fd].id == batch[k].data;
    }
  }

  /** What the kernel reports to a loop without orphans. */
  ghost predicate IsReport(s: LoopState, fds: seq<(Fd, EventSet)>, batch: seq<Ready>) {
    Inv(s) && Orphans(s) == {} && batch == Wait(s.epoll, fds)
  }

  lemma SafeEntry(s: LoopState, fds: seq<(Fd, EventSet)>, k: nat, h: Callbacks, env: seq<Outside>)
    requires Inv(s) && Orphans(s) == {} && k < |Wait(s.epoll, fds)|
    ensures var batch := Wait(s.epoll, fds); Allocated(Before(s, batch, k, h, env), batch[k].data)
  {
    var fd := WaitReports(s.epoll, fds, k);
    DispatchSafety(s, Wait(s.epoll, fds), k, h, env, fd);
  }

  /** With no orphan at the wait, the whole batch is safe. */
  lemma WholeBatchSafe(s: LoopState, fds: seq<(Fd, EventSet)>, h: Callbacks, env: seq<Outside>)
    requires Inv(s) && Orphans(s) == {}
    ensures var batch := Wait(s.epoll, fds);
            forall k :: 0 <= k < |batch| ==> Allocated(Before(s, batch, k, h, env), batch[k].data)
  {
    var batch := Wait(s.epoll, fds);
    forall k | 0 <= k < |batch| ensures Allocated(Before(s, batch, k, h, env), batch[k].data) {
      SafeEntry(s, fds, k, h, env);
    }
  }

  // ---- No stale dispatch ----

  ghost predicate HasStatus(s: LoopState, id: nat, status: EventStatus) {
    BoxAt(s, id).Some? && BoxAt(s, id).value.status == status
  }

  ghost predicate InGc(s: LoopState, id: nat) {
    exists i :: 0 <= i < |s.gc| && s.gc[i].id == id
  }

  lemma GcKeeps(s: LoopState, n: Notifier, f: Faults, id: nat)
    requires InGc(s, id)
    ensures InGc(Apply(s, n, f).0, id)
  {
    var i :| 0 <= i < |s.gc| && s.gc[i].id == id;
    assert s.gc <= Apply(s, n, f).0.gc;
    assert Apply(s, n, f).0.gc[i].id == id;
  }

  lemma {:induction false} GcKeepsAll(s: LoopState, ns: seq<Notifier>, k: nat, faults: seq<Faults>, id: nat)
    requires InGc(s, id) && k <= |ns|
    ensures InGc(UpdateTo(s, ns, k, faults).0, id)
  {
    if k > 0 {
      GcKeepsAll(s, ns, k - 1, faults, id);
      var f := FaultsAt(faults, k - 1);
      GcKeeps(Shut(UpdateTo(s, ns, k - 1, faults).0, f.closed), ns[k - 1], f, id);
    }
  }

  lemma RemovedInGc(s: LoopState, id: nat)
    requires Agree(s)
    ensures HasStatus(s, id, Removed) <==> InGc(s, id)
  {
    if i :| 0 <= i < |s.gc| && s.gc[i].id == id {
      BoxAtGc(s, i);
    }
  }

  /** A notifier removed by the time of entry `j` runs no handler at `j` or later in the batch. */
  lemma NoDispatchAfterRemoval(s: LoopState, batch: seq<Ready>, j: nat, k: nat, h: Callbacks, env: seq<Outside>)
    requires Inv(s) && j <= k < |batch|
    requires HasStatus(Before(s, batch, j, h, env), batch[k].data, Removed)
    ensures HandlersRun(Before(s, batch, k, h, env), batch[k]) == []
  {
    BatchInv(s, batch, j, h, env);
    BatchInv(s, batch, k, h, env);
    RemovedInGc(Before(s, batch, j, h, env), batch[k].data);
    RemovalLasts(s, batch, j, k, h, env, batch[k].data);
    RemovedInGc(Before(s, batch, k, h, env), batch[k].data);
  }

  /** In the garbage when entry `k` is taken up. */
  ghost predicate InGcAt(s: LoopState, batch: seq<Ready>, k: nat, h: Callbacks, env: seq<Outside>, id: nat) {
    k <= |batch| && InGc(Before(s, batch, k, h, env), id)
  }

  lemma EntryKeepsGc(s: LoopState, batch: seq<Ready>, k: nat, h: Callbacks, env: seq<Outside>, id: nat)
    requires k < |batch| && InGcAt(s, batch, k, h, env, id)
    ensures InGcAt(s, batch, k + 1, h, env, id)
  {
    var s1 := Before(s, batch, k, h, env);
    var asked := Asked(s1, batch[k], k, h);
    GcKeepsAll(Shut(s1, EnvAt(env, k).closed), asked, |asked|, EnvAt(env, k).faults, id);
  }

  lemma {:induction false} RemovalLasts(s: LoopState, batch: seq<Ready>, j: nat, k: nat, h: Callbacks,
                                        env: seq<Outside>, id: nat)
    requires j <= k <= |batch| && InGcAt(s, batch, j, h, env, id)
    ensures InGcAt(s, batch, k, h, env, id)
    decreases k - j
  {
    if j < k {
      EntryKeepsGc(s, batch, j, h, env, id);
      RemovalLasts(s, batch, j + 1, k, h, env, id);
    }
  }

  /** The requests that can make a parked descriptor Alive again: a resume, or the removal of the notifier that
      displaced it. */
  ghost predicate Revives(s: LoopState, n: Notifier, fd: Fd) {
    || (n.op.Resume? && n.rawFd == fd)
    || (n.op.Delete? && n.rawFd in s.events && s.events[n.rawFd].parkedFd == Some(fd))
  }

  /** The box is still parked under `fd`, or was removed since. */
  ghost predicate Silent(s: LoopState, fd: Fd, id: nat) {
    InGc(s, id) || (fd in s.events && s.events[fd].id == id && s.events[fd].status.Parked?)
  }

  lemma StaysSilent(s: LoopState, n: Notifier, f: Faults, fd: Fd, id: nat)
    requires Inv(s) && Silent(s, fd, id) && !Revives(s, n, fd)
    ensures Silent(Apply(s, n, f).0, fd, id)
  {
    var s' := Apply(s, n, f).0;
    if InGc(s, id) {
      GcKeeps(s, n, f, id);
    } else if n.op.Delete? && n.rawFd == fd && fd !in s'.events {
      assert s'.gc[|s.gc|].id == id;
    } else if (n.op.AddExclusion? || n.op.AddShared?) && n.rawFd !in s.events {
      AddFreshOutcome(s, n, f);
    }
  }

  /** None of the first `k` requests of a list, each at its turn, revives `fd`. */
  ghost predicate NoneRevives(s: LoopState, ns: seq<Notifier>, k: nat, faults: seq<Faults>, fd: Fd)
    requires k <= |ns|
  {
    k > 0 ==> NoneRevives(s, ns, k - 1, faults, fd) && !Revives(UpdateTo(s, ns, k - 1, faults).0, ns[k - 1], fd)
  }

  /** No request made from entry `j` on, up to entry `k`, revives `fd`. */
  ghost predicate NeverRevived(s: LoopState, batch: seq<Ready>, j: nat, k: nat, h: Callbacks, env: seq<Outside>, fd: Fd)
    requires k <= |batch|
    decreases k - j
  {
    j < k ==>
      && QuietEntry(Before(s, batch, j, h, env), batch[j], j, h, EnvAt(env, j), fd)
      && NeverRevived(s, batch, j + 1, k, h, env, fd)
  }

  /** No request made by one entry's handlers revives `fd`. */
  ghost predicate QuietEntry(s: LoopState, r: Ready, i: nat, h: Callbacks, o: Outside, fd: Fd) {
    var asked := Asked(s, r, i, h);
    NoneRevives(Shut(s, o.closed), asked, |asked|, o.faults, fd)
  }

  lemma {:induction false} StaysSilentAll(s: LoopState, ns: seq<Notifier>, k: nat, faults: seq<Faults>, fd: Fd, id: nat)
    requires Inv(s) && Silent(s, fd, id) && k <= |ns| && NoneRevives(s, ns, k, faults, fd)
    ensures Silent(UpdateTo(s, ns, k, faults).0, fd, id)
  {
    if k > 0 {
      StaysSilentAll(s, ns, k - 1, faults, fd, id);
      UpdateHolds(s, ns, k - 1, faults);
      var s1, f := UpdateTo(s, ns, k - 1, faults).0, FaultsAt(faults, k - 1);
      ShutHolds(s1, f.closed);
      StaysSilent(Shut(s1, f.closed), ns[k - 1], f, fd, id);
    }
  }

  /** Parked or removed when entry `k` is taken up. */
  ghost predicate SilentAt(s: LoopState, batch: seq<Ready>, k: nat, h: Callbacks, env: seq<Outside>, fd: Fd, id: nat) {
    k <= |batch| && Silent(Before(s, batch, k, h, env), fd, id)
  }

  lemma EntrySilent(s: Consistent, batch: seq<Ready>, j: nat, k: nat, h: Callbacks, env: seq<Outside>, fd: Fd, id: nat)
    requires j < k <= |batch| && SilentAt(s, batch, j, h, env, fd, id) && NeverRevived(s, batch, j, k, h, env, fd)
    ensures SilentAt(s, batch, j + 1, h, env, fd, id) && NeverRevived(s, batch, j + 1, k, h, env, fd)
  {
    BatchInv(s, batch, j, h, env);
    var s1 := Before(s, batch, j, h, env);
    var asked := Asked(s1, batch[j], j, h);
    ShutHolds(s1, EnvAt(env, j).closed);
    StaysSilentAll(Shut(s1, EnvAt(env, j).closed), asked, |asked|, EnvAt(env, j).faults, fd, id);
  }

  lemma {:induction false} SilenceLasts(s: Consistent, batch: seq<Ready>, j: nat, k: nat, h: Callbacks,
                                        env: seq<Outside>, fd: Fd, id: nat)
    requires j <= k <= |batch| && SilentAt(s, batch, j, h, env, fd, id) && NeverRevived(s, batch, j, k, h, env, fd)
    ensures SilentAt(s, batch, k, h, env, fd, id)
    decreases k - j
  {
    if j < k {
      EntrySilent(s, batch, j, k, h, env, fd, id);
      SilenceLasts(s, batch, j + 1, k, h, env, fd, id);
    }
  }

  /** A notifier parked by the time of entry `j`, and not revived since, runs no handler at entry `k`. */
  lemma NoDispatchWhileParked(s: LoopState, batch: seq<Ready>, j: nat, k: nat, h: Callbacks, env: seq<Outside>, fd: Fd)
    requires Inv(s) && j <= k < |batch| && NeverRevived(s, batch, j, k, h, env, fd)
    requires var s1 := Before(s, batch, j, h, env);
             fd in s1.events && s1.events[fd].status.Parked? && s1.events[fd].id == batch[k].data
    ensures HandlersRun(Before(s, batch, k, h, env), batch[k]) == []
  {
    var id := batch[k].data;
    SilenceLasts(s, batch, j, k, h, env, fd, id);
    BatchInv(s, batch, k, h, env);
    var s2 := Before(s, batch, k, h, env);
    if InGc(s2, id) {
      RemovedInGc(s2, id);
    } else {
      BoxAtEvents(s2, fd);
    }
  }

  /** A notifier registered during the batch gets none of the batch's events, whatever descriptor it took over. */
  lemma NewBoxGetsNoOldEvent(s: LoopState, fds: seq<(Fd, EventSet)>, j: nat, k: nat, h: Callbacks,
                             env: seq<Outside>, fd: Fd)
    requires Inv(s) && j <= |Wait(s.epoll, fds)| && k < |Wait(s.epoll, fds)|
    requires var now := Before(s, Wait(s.epoll, fds), j, h, env);
             fd in now.events && !Allocated(s, now.events[fd].id)
    requires Orphans(s) == {}
    ensures Before(s, Wait(s.epoll, fds), j, h, env).events[fd].id != Wait(s.epoll, fds)[k].data
  {
    var from := WaitReports(s.epoll, fds, k);
    assert from !in Orphans(s);
    assert s.events[from].id == Wait(s.epoll, fds)[k].data;
  }

  // ---- The wake-up flags ----

  /** The handler the loop registers for its own eventfd; it empties the counter. */
  datatype OwnHandler = OwnHandler(fd: Fd, id: HandlerId)

  /** What serving one entry does to the flags: its handlers empty the counter, and its list succeeds and ticks. */
  datatype Effect = Effect(drains: bool, ticks: bool)

  ghost predicate Drains(s: LoopState, r: Ready, own: OwnHandler) {
    own.id in HandlersRun(s, r) && BoxAt(s, r.data).value.rawFd == own.fd
  }

  ghost function ServeEffect(s: LoopState, r: Ready, i: nat, h: Callbacks, o: Outside, own: OwnHandler): Effect {
    Effect(Drains(s, r, own), ServeOutcome(s, r, i, h, o).1.None?)
  }

  /** For the first `k` entries of a batch. */
  ghost function Effects(s: LoopState, batch: seq<Ready>, k: nat, h: Callbacks, env: seq<Outside>, own: OwnHandler)
    : (e: seq<Effect>)
    requires k <= |batch|
    ensures |e| == k
  {
    if k == 0 then []
    else
      Effects(s, batch, k - 1, h, env, own)
      + [ServeEffect(Before(s, batch, k - 1, h, env), batch[k - 1], k - 1, h, EnvAt(env, k - 1), own)]
  }

  function KickStep(e: Effect, kickMe: bool, kick: Kick): Kick {
    var counter := if e.drains then 0 else kick.counter;
    if e.ticks then Kick(true, Kicked(kickMe, counter)) else kick.(counter := counter)
  }

  function KickAfter(es: seq<Effect>, kickMe: bool, kick: Kick): Kick {
    if es == [] then kick else KickStep(es[|es| - 1], kickMe, KickAfter(es[..|es| - 1], kickMe, kick))
  }

  /** A batch leaves the loop kicked exactly if it was before or some entry's list succeeded, an empty one included.
      A loop that did not ask to be kicked never makes its own eventfd readable; one that did leaves it readable
      exactly if it was and was not emptied, or some list succeeded and it was not emptied since. */
  lemma {:induction false} KickExactly(es: seq<Effect>, kickMe: bool, kick: Kick)
    ensures var kick' := KickAfter(es, kickMe, kick);
            && (kick'.kicked <==> kick.kicked || exists j :: 0 <= j < |es| && es[j].ticks)
            && (!kickMe ==> kick'.counter == if exists j :: 0 <= j < |es| && es[j].drains then 0 else kick.counter)
            && (kickMe ==>
                  (kick'.counter > 0 <==>
                   || (kick.counter > 0 && !DrainsFrom(es, 0))
                   || exists j :: 0 <= j < |es| && es[j].ticks && !DrainsFrom(es, j + 1)))
  {
    if es != [] {
      var front, last := es[..|es| - 1], |es| - 1;
      KickExactly(front, kickMe, kick);
      assert forall j :: 0 <= j <= last ==> (DrainsFrom(es, j) <==> DrainsFrom(front, j) || es[last].drains);
      assert !DrainsFrom(es, last + 1);
    }
  }

  /** Some entry from `j` on empties the counter. */
  predicate DrainsFrom(es: seq<Effect>, j: nat) {
    exists m :: j <= m < |es| && es[m].drains
  }
}
