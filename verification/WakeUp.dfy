/** The handshake that wakes a sleeping loop: one waiter and any number of tickers, as atomic steps on sequentially
    consistent flags. A ticker is any thread inside `tick`, the waiter's own calls included. */
module WakeUp {
  import opened Results
  import opened TimerModel
  import opened EventFd

  /** Where a ticker stands: it has published its work; it has stored `kicked`; it has seen `kick_me` and will write. */
  datatype TickerPc = Published | Stored | Writing

  /** Where the loop stands. `readAt` is the instant at which the first expiry was read, `sleptAt` the instant at
      which the wait began; `armed` says whether `kick_me` was set for this wait. */
  datatype WaiterPc =
    | Running                                               // handlers and timers run
    | ExitChecked                                           // the manager did not ask to exit
    | Fresh                                                 // `kicked` has just been cleared
    | Timed(timeout: Option<nat>, readAt: nat)              // the timeout is computed
    | Armed(timeout: Option<nat>, readAt: nat)              // `kick_me` is set
    | Committed(timeout: Option<nat>, readAt: nat)          // `kicked` was found clear: a real wait is due
    | Sleeping(timeout: Option<nat>, readAt: nat, sleptAt: nat)
    | Polling(armed: bool)                                  // collecting events without waiting

  datatype State = State(kicked: bool, kickMe: bool, counter: nat, now: nat, queue: seq<Timer>, exitRequested: bool,
                         waiter: WaiterPc, tickers: map<nat, TickerPc>)

  const START := State(false, false, 0, 0, [], false, Running, map[])

  /** What a thread publishes before it ticks. */
  datatype Work = AddTimer(t: Timer) | RequestExit | OtherWork

  datatype Step =
    // tickers
    | Begin(id: nat, work: Work)
    | Store(id: nat)
    | Load(id: nat)
    | Write(id: nat)
    // anyone
    | DelTimer(timer: nat)
    | Advance(d: nat)
    // the waiter
    | CheckExit
    | Reset
    | ReadMin
    | Arm
    | SkipArm
    | CheckKicked
    | Sleep
    | Wake
    | Fail
    | Disarm
    | Drain
    | RunDue

  predicate Enabled(s: State, step: Step) {
    match step
    case Begin(id, _) => id !in s.tickers
    case Store(id) => id in s.tickers && s.tickers[id].Published?
    case Load(id) => id in s.tickers && s.tickers[id].Stored?
    case Write(id) => id in s.tickers && s.tickers[id].Writing?
    case DelTimer(_) => true
    case Advance(_) => true
    case CheckExit => s.waiter.Running? && !s.exitRequested
    case Reset => s.waiter.ExitChecked? || s.waiter.Timed?  // an I/O thread computes its timeout twice
    case ReadMin => s.waiter.Fresh?
    case Arm => s.waiter.Timed? && s.waiter.timeout != Some(0)
    case SkipArm => s.waiter.Timed? && s.waiter.timeout == Some(0)
    case CheckKicked => s.waiter.Armed?
    case Sleep => s.waiter.Committed?
    case Wake => s.waiter.Sleeping?  // by an event, the deadline, or a signal
    case Fail => s.waiter.Polling?   // a system call fails; the caller is free to run the loop again
    case Disarm => s.waiter.Polling?
    case Drain => s.waiter.Running?
    case RunDue => s.waiter.Running?
  }

  function Do(s: State, step: Step): State
    requires Enabled(s, step)
  {
    match step
    case Begin(id, work) =>
      s.(tickers := s.tickers[id := Published],
         queue := if work.AddTimer? then Insert(s.queue, work.t) else s.queue,
         exitRequested := s.exitRequested || work.RequestExit?)
    case Store(id) => s.(kicked := true, tickers := s.tickers[id := Stored])
    case Load(id) => s.(tickers := if s.kickMe then s.tickers[id := Writing] else s.tickers - {id})
    case Write(id) => s.(counter := Written(s.counter), tickers := s.tickers - {id})
    case DelTimer(timer) => s.(queue := Remove(s.queue, timer))
    case Advance(d) => s.(now := s.now + d)
    case CheckExit => s.(waiter := ExitChecked)
    case Reset => s.(kicked := false, waiter := Fresh)
    case ReadMin => s.(waiter := Timed(MinDuration(s.queue, s.now), s.now))
    case Arm => s.(kickMe := true, waiter := Armed(s.waiter.timeout, s.waiter.readAt))
    case SkipArm => s.(waiter := Polling(false))
    case CheckKicked => s.(waiter := if s.kicked then Polling(true) else Committed(s.waiter.timeout, s.waiter.readAt))
    case Sleep => s.(waiter := Sleeping(s.waiter.timeout, s.waiter.readAt, s.now))
    case Wake => s.(waiter := Polling(true))
    case Fail => s.(waiter := Running)  // `kick_me` stays set
    case Disarm => s.(kickMe := if s.waiter.armed then false else s.kickMe, waiter := Running)
    case Drain => s.(counter := 0)
    case RunDue => s.(queue := s.queue[Due(s.queue, s.now)..])
  }

  // ---- Runs ----

  predicate Legal(steps: seq<Step>)
    decreases |steps|, 0
  {
    steps != [] ==> var last := |steps| - 1; Legal(steps[..last]) && Enabled(Run(steps[..last]), steps[last])
  }

  function Run(steps: seq<Step>): State
    requires Legal(steps)
    decreases |steps|, 1
  {
    if steps == [] then START else var last := |steps| - 1; Do(Run(steps[..last]), steps[last])
  }

  /** Some tick stored `kicked` after the waiter's last reset. */
  predicate KickedSinceReset(steps: seq<Step>) {
    steps != [] &&
    var last := |steps| - 1;
    !steps[last].Reset? && (steps[last].Store? || KickedSinceReset(steps[..last]))
  }

  /** Some thread published work after the waiter's last reset. */
  predicate PublishedSinceReset(steps: seq<Step>) {
    steps != [] &&
    var last := |steps| - 1;
    !steps[last].Reset? && (steps[last].Begin? || PublishedSinceReset(steps[..last]))
  }

  // ---- The invariant ----

  predicate MustArm(w: WaiterPc) {
    w.Armed? || w.Committed? || w.Sleeping? || (w.Polling? && w.armed)
  }

  predicate CommittedToWait(w: WaiterPc) {
    w.Committed? || w.Sleeping?
  }

  ghost predicate Ticking(s: State, pc: TickerPc) {
    exists id :: id in s.tickers && s.tickers[id] == pc
  }

  /** The timeout was read before this timer was added. */
  predicate Early(w: WaiterPc, t: Timer) {
    && (w.Timed? || w.Armed? || w.Committed? || w.Sleeping?) && w.timeout != Some(0)
    && (w.timeout.Some? ==> t.expireTime < w.readAt + w.timeout.value)
  }

  ghost predicate Inv(s: State) {
    && (MustArm(s.waiter) ==> s.kickMe)
    && (MustArm(s.waiter) && !s.waiter.Polling? ==> s.waiter.timeout != Some(0))
    && (CommittedToWait(s.waiter) && s.kicked ==> s.counter > 0 || Ticking(s, Stored) || Ticking(s, Writing))
    && Sorted(s.queue)
    && ((exists t :: t in s.queue && Early(s.waiter, t)) ==> s.kicked || Ticking(s, Published))
    && (s.waiter.Sleeping? ==> s.waiter.readAt <= s.waiter.sleptAt)
    && ((s.waiter.Timed? || s.waiter.Armed? || s.waiter.Committed?) ==> s.waiter.readAt <= s.now)
  }

  lemma InsertSorted(q: seq<Timer>, t: Timer)
    requires Sorted(q)
    ensures Sorted(Insert(q, t))
  {
    var p, r := Place(q, t), Insert(q, t);
    forall i, j | 0 <= i < j < |r| ensures r[i].expireTime <= r[j].expireTime {
      if i < p {
        assert r[i] == q[i];
        assert j < p ==> r[j] == q[j];
        assert j > p ==> r[j] == q[j - 1];
      } else {
        assert r[j] == q[j - 1];
        assert i > p ==> r[i] == q[i - 1];
        assert i == p && p < j - 1 ==> q[p].expireTime <= q[j - 1].expireTime;
      }
    }
  }

  lemma InsertMembers(q: seq<Timer>, t: Timer, u: Timer)
    ensures u in Insert(q, t) <==> u in q || u == t
  {
    var p := Place(q, t);
    assert q == q[..p] + q[p..];
    assert u in q <==> u in q[..p] || u in q[p..];
  }

  lemma {:induction false} RemoveSorted(q: seq<Timer>, id: nat)
    requires Sorted(q)
    ensures Sorted(Remove(q, id))
    ensures forall u :: u in Remove(q, id) ==> u in q
  {
    if q != [] && q[0].id != id {
      RemoveSorted(q[1..], id);
      var rest := Remove(q[1..], id);
      forall j | 0 <= j < |rest| ensures q[0].expireTime <= rest[j].expireTime {
        assert rest[j] in q[1..];
      }
    }
  }

  /** Steps of the tickers. */
  lemma TickerStepHolds(s: State, step: Step)
    requires Inv(s) && Enabled(s, step) && (step.Begin? || step.Store? || step.Load? || step.Write?)
    ensures Inv(Do(s, step))
  {
    var s' := Do(s, step);
    assert forall id :: id in s.tickers && id != step.id ==> id in s'.tickers && s'.tickers[id] == s.tickers[id];
    match step
    case Begin(id, work) =>
      if work.AddTimer? {
        InsertSorted(s.queue, work.t);
        forall u ensures u in s'.queue <==> u in s.queue || u == work.t {
          InsertMembers(s.queue, work.t, u);
        }
      }
      assert s'.tickers[id] == Published;
    case Store(id) => assert s'.tickers[id] == Stored;
    case Load(id) => assert s.kickMe ==> s'.tickers[id] == Writing;
    case Write(id) => assert s'.counter > 0;
  }

  /** Steps that only take timers out of the queue. */
  lemma QueueStepHolds(s: State, step: Step)
    requires Inv(s) && Enabled(s, step) && (step.DelTimer? || step.RunDue?)
    ensures Inv(Do(s, step))
  {
    if step.DelTimer? {
      RemoveSorted(s.queue, step.timer);
    }
  }

  /** The waiter reads its timeout. */
  lemma ReadMinHolds(s: State)
    requires Inv(s) && Enabled(s, ReadMin)
    ensures Inv(Do(s, ReadMin))
  {
    MinDurationIsLeast(s.queue, s.now);
  }

  /** Steps of the waiter and the clock that leave the queue alone. */
  lemma WaiterStepHolds(s: State, step: Step)
    requires Inv(s) && Enabled(s, step) && !(step.Begin? || step.Store? || step.Load? || step.Write?)
    requires !(step.DelTimer? || step.RunDue? || step.ReadMin?)
    ensures Inv(Do(s, step))
  {
  }

  lemma StepHolds(s: State, step: Step)
    requires Inv(s) && Enabled(s, step)
    ensures Inv(Do(s, step))
  {
    match step
    case Begin(_, _) => TickerStepHolds(s, step);
    case Store(_) => TickerStepHolds(s, step);
    case Load(_) => TickerStepHolds(s, step);
    case Write(_) => TickerStepHolds(s, step);
    case DelTimer(_) => QueueStepHolds(s, step);
    case RunDue => QueueStepHolds(s, step);
    case ReadMin => ReadMinHolds(s);
    case _ => WaiterStepHolds(s, step);
  }

  lemma {:induction false} RunHolds(steps: seq<Step>)
    requires Legal(steps)
    ensures Inv(Run(steps))
  {
    if steps != [] {
      var last := |steps| - 1;
      RunHolds(steps[..last]);
      StepHolds(Run(steps[..last]), steps[last]);
    }
  }

  // ---- No lost wake-up ----

  lemma KickedByStep(s: State, step: Step)
    requires Enabled(s, step)
    ensures Do(s, step).kicked <==> !step.Reset? && (step.Store? || s.kicked)
    ensures Do(s, step).exitRequested <==>
            !step.CheckExit? && ((step.Begin? && step.work.RequestExit?) || s.exitRequested)
  {
  }

  lemma {:induction false} KickedMeansTicked(steps: seq<Step>)
    requires Legal(steps)
    ensures Run(steps).kicked <==> KickedSinceReset(steps)
  {
    if steps != [] {
      var last := |steps| - 1;
      KickedMeansTicked(steps[..last]);
      KickedByStep(Run(steps[..last]), steps[last]);
    }
  }

  /** Once the loop is committed to a real wait, a tick stored since its last reset has made the eventfd readable,
      or its ticker is still on the way: it will find `kick_me` set, or has found it, and will write. */
  lemma NoLostWakeUp(steps: seq<Step>)
    requires Legal(steps) && CommittedToWait(Run(steps).waiter) && KickedSinceReset(steps)
    ensures var s := Run(steps); s.counter > 0 || (s.kickMe && (Ticking(s, Stored) || Ticking(s, Writing)))
  {
    RunHolds(steps);
    KickedMeansTicked(steps);
  }

  /** Such a ticker's own next steps make the eventfd readable while the loop waits... */
  lemma TickerDelivers(s: State, id: nat)
    requires Inv(s) && CommittedToWait(s.waiter) && id in s.tickers && !s.tickers[id].Published?
    ensures var s1 := if s.tickers[id].Stored? then Do(s, Load(id)) else s;
            Enabled(s1, Write(id)) && Do(s1, Write(id)).counter > 0 && Do(s1, Write(id)).waiter == s.waiter
  {
  }

  /** ...and no step of another thread takes it off that way, or empties the eventfd. */
  lemma OthersDoNotInterfere(s: State, id: nat, step: Step)
    requires Inv(s) && CommittedToWait(s.waiter) && id in s.tickers && !s.tickers[id].Published?
    requires Enabled(s, step) && !step.Wake? && step != Load(id) && step != Write(id)
    ensures var s' := Do(s, step);
            CommittedToWait(s'.waiter) && id in s'.tickers && s'.tickers[id] == s.tickers[id] && s'.counter >= s.counter
  {
  }

  /** Published work whose tick has not yet been stored, or the mark it left. */
  ghost predicate Pending(s: State) {
    s.kicked || Ticking(s, Published)
  }

  lemma BeginsPending(s: State, step: Step)
    requires Enabled(s, step) && step.Begin?
    ensures Pending(Do(s, step))
  {
    assert Do(s, step).tickers[step.id] == Published;
  }

  lemma StaysPending(s: State, step: Step)
    requires Enabled(s, step) && Pending(s) && !step.Reset?
    ensures Pending(Do(s, step))
  {
    if !s.kicked && !step.Store? {
      var id :| id in s.tickers && s.tickers[id] == Published;
      assert Do(s, step).tickers[id] == Published;
    }
  }

  lemma {:induction false} PublishedIsPending(steps: seq<Step>)
    requires Legal(steps) && PublishedSinceReset(steps)
    ensures Pending(Run(steps))
  {
    var last := |steps| - 1;
    if steps[last].Begin? {
      BeginsPending(Run(steps[..last]), steps[last]);
    } else {
      PublishedIsPending(steps[..last]);
      StaysPending(Run(steps[..last]), steps[last]);
    }
  }

  /** The loop waits, no tick is in flight and the eventfd is empty. */
  predicate Quiet(s: State) {
    CommittedToWait(s.waiter) && s.tickers == map[] && s.counter == 0
  }

  /** Whatever was published after the last reset keeps the loop from waiting in quiet. */
  lemma NothingPublishedUnseen(steps: seq<Step>)
    requires Legal(steps) && Quiet(Run(steps))
    ensures !PublishedSinceReset(steps) && !KickedSinceReset(steps)
  {
    RunHolds(steps);
    KickedMeansTicked(steps);
    if PublishedSinceReset(steps) {
      PublishedIsPending(steps);
    }
  }

  // ---- Timers and sleep ----

  /** Waiting in quiet, every pending timer expires no earlier than the timeout counted from when it was read. */
  lemma TimersCovered(steps: seq<Step>, t: Timer)
    requires Legal(steps) && Quiet(Run(steps)) && t in Run(steps).queue
    ensures var w := Run(steps).waiter; w.timeout.Some? && w.readAt + w.timeout.value <= t.expireTime
  {
    RunHolds(steps);
    var s := Run(steps);
    assert !Early(s.waiter, t);
  }

  /** The instant at which a timed wait ends by itself. */
  function Deadline(w: WaiterPc): nat
    requires w.Sleeping? && w.timeout.Some?
  {
    w.sleptAt + w.timeout.value
  }

  ghost predicate OnTime(s: State)
    requires s.waiter.Sleeping? && s.waiter.timeout.Some?
  {
    forall t :: t in s.queue ==> Deadline(s.waiter) <= t.expireTime
  }

  /** A quiet wait outlasts no pending timer by more than the time between reading the expiry and going to sleep. */
  lemma SleepDeadline(steps: seq<Step>)
    requires Legal(steps) && Quiet(Run(steps)) && Run(steps).waiter.Sleeping? && Run(steps).queue != []
    ensures var s := Run(steps); var w := s.waiter; var delay := w.sleptAt - w.readAt;
            && w.timeout.Some? && delay >= 0
            && (forall t :: t in s.queue ==> Deadline(w) <= t.expireTime + delay)
  {
    RunHolds(steps);
    var s := Run(steps);
    assert s.queue[0] in s.queue;
    forall t | t in s.queue
      ensures s.waiter.timeout.Some? && s.waiter.readAt + s.waiter.timeout.value <= t.expireTime
    {
      TimersCovered(steps, t);
    }
  }

  /** No timer was deleted since the timeout was read. */
  predicate KeptSinceRead(steps: seq<Step>) {
    steps == [] ||
    var last := |steps| - 1;
    steps[last].ReadMin? || (!steps[last].DelTimer? && KeptSinceRead(steps[..last]))
  }

  /** The timer whose expiry was read is still pending. */
  ghost predicate FirstStillThere(s: State) {
    var w := s.waiter;
    (w.Timed? || w.Armed? || w.Committed? || w.Sleeping?) && w.timeout.Some? && w.timeout.value > 0 ==>
      exists t :: t in s.queue && t.expireTime == w.readAt + w.timeout.value
  }

  lemma FirstStaysThere(s: State, step: Step)
    requires Enabled(s, step) && (step.ReadMin? || (!step.DelTimer? && FirstStillThere(s)))
    ensures FirstStillThere(Do(s, step))
  {
    var s' := Do(s, step);
    if step.ReadMin? {
      assert s.queue != [] ==> s.queue[0] in s'.queue;
    } else if step.Begin? && step.work.AddTimer? {
      forall u ensures u in s'.queue <==> u in s.queue || u == step.work.t {
        InsertMembers(s.queue, step.work.t, u);
      }
    }
  }

  lemma {:induction false} FirstThere(steps: seq<Step>)
    requires Legal(steps) && KeptSinceRead(steps)
    ensures FirstStillThere(Run(steps))
  {
    if steps != [] {
      var last := |steps| - 1;
      if !steps[last].ReadMin? {
        FirstThere(steps[..last]);
      }
      FirstStaysThere(Run(steps[..last]), steps[last]);
    }
  }

  /** Every pending timer lies beyond the timeout counted from its reading. */
  ghost predicate Covered(s: State)
    requires s.waiter.Sleeping? && s.waiter.timeout.Some?
  {
    forall t :: t in s.queue ==> s.waiter.readAt + s.waiter.timeout.value <= t.expireTime
  }

  lemma OnTimeWhenPrompt(s: State)
    requires s.waiter.Sleeping? && s.waiter.timeout.Some? && s.waiter.timeout.value > 0
    requires s.waiter.readAt <= s.waiter.sleptAt && Covered(s) && FirstStillThere(s)
    ensures OnTime(s) <==> s.waiter.sleptAt == s.waiter.readAt
  {
  }

  /** With no deletion since the timeout was read, a quiet wait ends in time for every pending timer exactly if it
      began at the very instant of that reading. */
  lemma OnTimeExactly(steps: seq<Step>)
    requires Legal(steps) && Quiet(Run(steps)) && KeptSinceRead(steps)
    requires Run(steps).waiter.Sleeping? && Run(steps).waiter.timeout.Some?
    ensures var s := Run(steps); OnTime(s) <==> s.waiter.sleptAt == s.waiter.readAt
  {
    RunHolds(steps);
    FirstThere(steps);
    var s := Run(steps);
    forall t | t in s.queue ensures s.waiter.readAt + s.waiter.timeout.value <= t.expireTime {
      TimersCovered(steps, t);
    }
    OnTimeWhenPrompt(s);
  }

  /** A deletion leaves the wait as it is, and can only make it end earlier than it has to. */
  lemma DeletionAddsSlack(s: State, timer: nat)
    requires Inv(s) && s.waiter.Sleeping? && s.waiter.timeout.Some? && OnTime(s)
    ensures Do(s, DelTimer(timer)).waiter == s.waiter && OnTime(Do(s, DelTimer(timer)))
  {
    RemoveSorted(s.queue, timer);
  }

  // ---- What the handshake does not cover ----

  /** Some thread asked to exit after the loop last looked. */
  predicate ExitRequestedSinceCheck(steps: seq<Step>) {
    steps != [] &&
    var last := |steps| - 1;
    !steps[last].CheckExit? &&
    ((steps[last].Begin? && steps[last].work.RequestExit?) || ExitRequestedSinceCheck(steps[..last]))
  }

  lemma {:induction false} ExitFlag(steps: seq<Step>)
    requires Legal(steps)
    ensures Run(steps).exitRequested <==> ExitRequestedSinceCheck(steps)
  {
    if steps != [] {
      var last := |steps| - 1;
      ExitFlag(steps[..last]);
      KickedByStep(Run(steps[..last]), steps[last]);
    }
  }

  /** The length of the run up to and including the last reset. */
  function LastReset(steps: seq<Step>): (n: nat)
    ensures n <= |steps|
  {
    if steps == [] then 0
    else if steps[|steps| - 1].Reset? then |steps|
    else LastReset(steps[..|steps| - 1])
  }

  lemma {:induction false} LegalPrefix(steps: seq<Step>, n: nat)
    requires Legal(steps) && n <= |steps|
    ensures Legal(steps[..n])
  {
    if n < |steps| {
      LegalPrefix(steps[..|steps| - 1], n);
      assert steps[..|steps| - 1][..n] == steps[..n];
    } else {
      assert steps[..n] == steps;
    }
  }

  lemma FlagKept(s: State, step: Step)
    requires Enabled(s, step) && !step.Begin?
    ensures Do(s, step).exitRequested == s.exitRequested
  {
  }

  /** With nothing published since the last reset, the exit flag is as it was then. */
  lemma {:induction false} FlagSinceReset(steps: seq<Step>)
    requires Legal(steps) && !PublishedSinceReset(steps)
    ensures Legal(steps[..LastReset(steps)])
    ensures Run(steps).exitRequested == Run(steps[..LastReset(steps)]).exitRequested
  {
    LegalPrefix(steps, LastReset(steps));
    if steps == [] || steps[|steps| - 1].Reset? {
      assert steps[..LastReset(steps)] == steps;
    } else {
      var last := |steps| - 1;
      FlagSinceReset(steps[..last]);
      FlagKept(Run(steps[..last]), steps[last]);
      assert steps[..last][..LastReset(steps)] == steps[..LastReset(steps)];
    }
  }

  /** A loop waiting in quiet has missed an exit request exactly when the flag was already set right after it reset
      `kicked` for the last time, which is before the wait and when a second look at the flag would show it. */
  lemma ExitMissedExactly(steps: seq<Step>)
    requires Legal(steps) && Quiet(Run(steps))
    ensures Legal(steps[..LastReset(steps)])
    ensures Run(steps).exitRequested <==> Run(steps[..LastReset(steps)]).exitRequested
  {
    NothingPublishedUnseen(steps);
    FlagSinceReset(steps);
  }

  ghost predicate Reaches(steps: seq<Step>, s: State) {
    Legal(steps) && Run(steps) == s
  }

  lemma Extend(steps: seq<Step>, s: State, step: Step) returns (longer: seq<Step>)
    requires Reaches(steps, s) && Enabled(s, step)
    ensures longer == steps + [step] && Reaches(longer, Do(s, step))
  {
    longer := steps + [step];
    assert longer[..|longer| - 1] == steps;
  }

  /** A whole tick while the loop is awake. */
  lemma TickAwake(steps: seq<Step>, s: State, work: Work) returns (longer: seq<Step>, s': State)
    requires Reaches(steps, s) && s.tickers == map[] && !s.kickMe
    ensures Reaches(longer, s')
    ensures s' == Do(s, Begin(0, work)).(kicked := true, tickers := map[])
  {
    var s1 := Do(s, Begin(0, work));
    var s2 := Do(s1, Store(0));
    longer := Extend(steps, s, Begin(0, work));
    longer := Extend(longer, s1, Store(0));
    longer := Extend(longer, s2, Load(0));
    s' := Do(s2, Load(0));
    assert s'.tickers == map[];
  }

  /** From a reset to an announced wait. */
  lemma PrepareWait(steps: seq<Step>, s: State) returns (longer: seq<Step>, s': State)
    requires Reaches(steps, s) && s.waiter.Fresh? && MinDuration(s.queue, s.now) != Some(0)
    ensures Reaches(longer, s') && longer == steps + [ReadMin, Arm]
    ensures s' == s.(kickMe := true, waiter := Armed(MinDuration(s.queue, s.now), s.now))
  {
    var s1 := Do(s, ReadMin);
    longer := Extend(steps, s, ReadMin);
    longer := Extend(longer, s1, Arm);
    s' := Do(s1, Arm);
  }

  /** From there to the wait, with some delay before it begins. */
  lemma GoToSleep(steps: seq<Step>, s: State, delay: nat) returns (longer: seq<Step>, s': State)
    requires Reaches(steps, s) && s.waiter.Armed? && !s.kicked
    ensures Reaches(longer, s') && longer == steps + [CheckKicked, Advance(delay), Sleep]
    ensures s' == s.(now := s.now + delay, waiter := Sleeping(s.waiter.timeout, s.waiter.readAt, s.now + delay))
  {
    var s1 := Do(s, CheckKicked);
    var s2 := Do(s1, Advance(delay));
    longer := Extend(steps, s, CheckKicked);
    longer := Extend(longer, s1, Advance(delay));
    longer := Extend(longer, s2, Sleep);
    s' := Do(s2, Sleep);
  }

  lemma LastResetSkips(steps: seq<Step>, more: seq<Step>)
    requires forall i :: 0 <= i < |more| ==> !more[i].Reset?
    ensures LastReset(steps + more) == LastReset(steps)
    decreases |more|
  {
    if more == [] {
      assert steps + more == steps;
    } else {
      var last := |more| - 1;
      assert (steps + more)[..|steps + more| - 1] == steps + more[..last];
      LastResetSkips(steps, more[..last]);
    }
  }

  /** A flag set at a reset, with no tick in flight, an empty eventfd and no timer due, can be slept through. */
  lemma ExitCanBeMissed(steps: seq<Step>) returns (longer: seq<Step>)
    requires Legal(steps) && steps != [] && steps[|steps| - 1].Reset? && Run(steps).exitRequested
    requires Run(steps).tickers == map[] && Run(steps).counter == 0
    requires MinDuration(Run(steps).queue, Run(steps).now) != Some(0)
    ensures steps <= longer && LastReset(longer) == |steps|
    ensures Legal(longer) && Quiet(Run(longer)) && Run(longer).exitRequested
  {
    var s;
    longer, s := PrepareWait(steps, Run(steps));
    longer, s := GoToSleep(longer, s, 0);
    var more := [ReadMin, Arm, CheckKicked, Advance(0), Sleep];
    assert longer == steps + more;
    LastResetSkips(steps, more);
  }

  /** It does happen: the request and its whole tick fit between the look at the flag and the reset. */
  lemma ExitMissedExample() returns (steps: seq<Step>)
    ensures Legal(steps) && Quiet(Run(steps)) && Run(steps).exitRequested
  {
    steps := Extend([], START, CheckExit);
    var s;
    steps, s := TickAwake(steps, Do(START, CheckExit), RequestExit);
    steps := Extend(steps, s, Reset);
    steps := ExitCanBeMissed(steps);
  }

  /** A timer due at 10 and five units between reading it and going to sleep: the wait lasts until 15. */
  lemma LateWaitExample() returns (steps: seq<Step>)
    ensures Legal(steps) && Quiet(Run(steps)) && Run(steps).waiter == Sleeping(Some(10), 0, 5)
    ensures Run(steps).queue == [Timer(0, 0, 10)] && Deadline(Run(steps).waiter) == 15
  {
    var t := Timer(0, 0, 10);
    assert Insert([], t) == [t];
    var s;
    steps, s := TickAwake([], START, AddTimer(t));
    steps := Extend(steps, s, CheckExit);
    s := Do(s, CheckExit);
    steps := Extend(steps, s, Reset);
    steps, s := PrepareWait(steps, Do(s, Reset));
    steps, s := GoToSleep(steps, s, 5);
  }

  // ---- One wait without interruption ----

  /** How long `ppoll` is asked to wait, if it is called at all. */
  function PolledFor(timeOut: Option<nat>, kicked: bool): Option<nat> {
    if timeOut != Some(0) && !kicked then timeOut else None
  }

  /** What `epoll_wait` is given: -1 for a wait without end, else 0. */
  function WaitMs(timeOut: Option<nat>, kicked: bool): int {
    if timeOut.None? && !kicked then -1 else 0
  }

  /** `kick_me` after a wait that succeeded (`ok`) or failed. */
  function KickMeAfter(kickMe: bool, timeOut: Option<nat>, ok: bool): bool {
    if ok then kickMe && timeOut == Some(0) else kickMe || timeOut != Some(0)
  }

  /** The waiter's steps from a known timeout to the end of the wait. */
  function WaitSteps(timeOut: Option<nat>, kicked: bool, ok: bool): seq<Step> {
    (if timeOut == Some(0) then [SkipArm] else if kicked then [Arm, CheckKicked] else [Arm, CheckKicked, Sleep, Wake])
    + [if ok then Disarm else Fail]
  }

  predicate EnabledAll(s: State, steps: seq<Step>)
    decreases |steps|
  {
    steps == [] || (Enabled(s, steps[0]) && EnabledAll(Do(s, steps[0]), steps[1..]))
  }

  function DoAll(s: State, steps: seq<Step>): State
    requires EnabledAll(s, steps)
    decreases |steps|
  {
    if steps == [] then s else DoAll(Do(s, steps[0]), steps[1..])
  }

  lemma DoFirst(s: State, step: Step, more: seq<Step>)
    requires Enabled(s, step) && EnabledAll(Do(s, step), more)
    ensures EnabledAll(s, [step] + more) && DoAll(s, [step] + more) == DoAll(Do(s, step), more)
  {
    assert ([step] + more)[1..] == more;
  }

  lemma DoOne(s: State, step: Step)
    requires Enabled(s, step)
    ensures EnabledAll(s, [step]) && DoAll(s, [step]) == Do(s, step)
  {
    DoFirst(s, step, []);
    assert [step] + [] == [step];
  }

  lemma RealWait(s: State, end: Step)
    requires s.waiter.Timed? && s.waiter.timeout != Some(0) && !s.kicked && (end == Disarm || end == Fail)
    ensures EnabledAll(s, [Arm, CheckKicked, Sleep, Wake, end])
    ensures DoAll(s, [Arm, CheckKicked, Sleep, Wake, end]) == Do(s.(kickMe := true, waiter := Polling(true)), end)
  {
    var s1 := Do(s, Arm);
    var s2 := Do(s1, CheckKicked);
    var s3 := Do(s2, Sleep);
    DoOne(Do(s3, Wake), end);
    DoFirst(s3, Wake, [end]);
    DoFirst(s2, Sleep, [Wake, end]);
    DoFirst(s1, CheckKicked, [Sleep, Wake, end]);
    DoFirst(s, Arm, [CheckKicked, Sleep, Wake, end]);
    assert [Sleep] + [Wake, end] == [Sleep, Wake, end];
    assert [CheckKicked] + [Sleep, Wake, end] == [CheckKicked, Sleep, Wake, end];
    assert [Arm] + [CheckKicked, Sleep, Wake, end] == [Arm, CheckKicked, Sleep, Wake, end];
  }

  lemma NoWait(s: State, end: Step)
    requires s.waiter.Timed? && (end == Disarm || end == Fail)
    ensures s.waiter.timeout == Some(0) ==>
              EnabledAll(s, [SkipArm, end]) && DoAll(s, [SkipArm, end]) == Do(s.(waiter := Polling(false)), end)
    ensures s.waiter.timeout != Some(0) && s.kicked ==>
              && EnabledAll(s, [Arm, CheckKicked, end])
              && DoAll(s, [Arm, CheckKicked, end]) == Do(s.(kickMe := true, waiter := Polling(true)), end)
  {
    if s.waiter.timeout == Some(0) {
      DoOne(Do(s, SkipArm), end);
      DoFirst(s, SkipArm, [end]);
    } else if s.kicked {
      var s1 := Do(s, Arm);
      DoOne(Do(s1, CheckKicked), end);
      DoFirst(s1, CheckKicked, [end]);
      DoFirst(s, Arm, [CheckKicked, end]);
      assert [Arm] + [CheckKicked, end] == [Arm, CheckKicked, end];
    }
  }

  /** The waiter's steps, with nobody in between, leave `kick_me` as the wait does... */
  lemma WaitIsSteps(s: State, ok: bool)
    requires s.waiter.Timed?
    ensures var steps := WaitSteps(s.waiter.timeout, s.kicked, ok);
            && EnabledAll(s, steps)
            && DoAll(s, steps) == s.(waiter := Running, kickMe := KickMeAfter(s.kickMe, s.waiter.timeout, ok))
  {
    var end := if ok then Disarm else Fail;
    NoWait(s, end);
    if s.waiter.timeout == Some(0) {
      assert [SkipArm] + [end] == [SkipArm, end];
    } else if s.kicked {
      assert [Arm, CheckKicked] + [end] == [Arm, CheckKicked, end];
    } else {
      RealWait(s, end);
      assert [Arm, CheckKicked, Sleep, Wake] + [end] == [Arm, CheckKicked, Sleep, Wake, end];
    }
  }

  /** ...and include a real wait exactly when one of the two system calls is asked for one, of just that length. */
  lemma SleepIsPolled(s: State, ok: bool)
    requires s.waiter.Timed?
    ensures var t := s.waiter.timeout;
            && (Sleep in WaitSteps(t, s.kicked, ok) <==> PolledFor(t, s.kicked).Some? || WaitMs(t, s.kicked) == -1)
            && (Sleep in WaitSteps(t, s.kicked, ok) ==>
                  PolledFor(t, s.kicked) == t && Do(Do(Do(s, Arm), CheckKicked), Sleep).waiter.timeout == t)
  {
    var t := s.waiter.timeout;
    if t != Some(0) && !s.kicked {
      assert WaitSteps(t, s.kicked, ok)[2] == Sleep;
    }
  }

  /** `epoll_wait` itself blocks only as that step of a wait without timeout, and then without end. */
  lemma BlockingIsSleep(s: State, ok: bool)
    requires s.waiter.Timed?
    ensures var t := s.waiter.timeout; var ms := WaitMs(t, s.kicked);
            && (ms != 0 <==> Sleep in WaitSteps(t, s.kicked, ok) && t.None?)
            && (ms != 0 ==> ms == -1)
  {
    SleepIsPolled(s, ok);
  }

  /** The same from the reset on: what `timers_min_duration` and the wait do to the flags in one turn. */
  lemma TurnIsSteps(s: State, ok: bool)
    requires s.waiter.ExitChecked?
    ensures var t := MinDuration(s.queue, s.now);
            var steps := [Reset] + ([ReadMin] + WaitSteps(t, false, ok));
            && EnabledAll(s, steps)
            && DoAll(s, steps) == s.(kicked := false, waiter := Running, kickMe := KickMeAfter(s.kickMe, t, ok))
  {
    var t, s1 := MinDuration(s.queue, s.now), Do(s, Reset);
    var s2 := Do(s1, ReadMin);
    WaitIsSteps(s2, ok);
    DoFirst(s1, ReadMin, WaitSteps(t, false, ok));
    DoFirst(s, Reset, [ReadMin] + WaitSteps(t, false, ok));
  }

  // ---- A tick in one go ----

  /** The steps of a ticker that has published its work, with nobody in between. */
  function TickSteps(id: nat, kickMe: bool): seq<Step> {
    [Store(id), Load(id)] + if kickMe then [Write(id)] else []
  }

  /** They set `kicked` and write the eventfd exactly if the loop asked for it, as the method `Tick` does. */
  lemma TickIsSteps(s: State, id: nat)
    requires id in s.tickers && s.tickers[id].Published?
    ensures EnabledAll(s, TickSteps(id, s.kickMe))
    ensures DoAll(s, TickSteps(id, s.kickMe)) ==
            s.(kicked := true, counter := Kicked(s.kickMe, s.counter), tickers := s.tickers - {id})
    ensures s.kickMe ==> DoAll(s, TickSteps(id, s.kickMe)).counter > 0
  {
    var s1 := Do(s, Store(id));
    var s2 := Do(s1, Load(id));
    if s.kickMe {
      DoOne(s2, Write(id));
      DoFirst(s1, Load(id), [Write(id)]);
      DoFirst(s, Store(id), [Load(id)] + [Write(id)]);
      assert [Store(id)] + ([Load(id)] + [Write(id)]) == TickSteps(id, s.kickMe);
      assert Do(s2, Write(id)).tickers == s.tickers - {id};
    } else {
      DoOne(s1, Load(id));
      DoFirst(s, Store(id), [Load(id)]);
      assert [Store(id)] + [Load(id)] == TickSteps(id, s.kickMe);
      assert s2.tickers == s.tickers - {id};
    }
  }

  /** The steps on the timer queue: one timer more... */
  lemma AddStep(s: State, id: nat, t: Timer, u: Timer)
    requires id !in s.tickers
    ensures u in Do(s, Begin(id, AddTimer(t))).queue <==> u in s.queue || u == t
  {
    InsertMembers(s.queue, t, u);
  }

  /** ...one less, if there is one of that name... */
  lemma DeleteStep(s: State, timer: nat, u: Timer)
    ensures var left := Do(s, DelTimer(timer)).queue;
            && (u.id != timer ==> (u in left <==> u in s.queue))
            && |left| == |s.queue| - if exists v :: v in s.queue && v.id == timer then 1 else 0
  {
    RemoveOne(s.queue, timer, u);
  }

  /** ...all gone that are due. */
  lemma DueStep(s: State, u: Timer)
    requires Sorted(s.queue) && s.waiter.Running?
    ensures u in Do(s, RunDue).queue <==> u in s.queue && s.now < u.expireTime
  {
    NotDueLeft(s.queue, s.now, u);
  }

  lemma NotDueLeft(q: seq<Timer>, now: nat, u: Timer)
    requires Sorted(q)
    ensures u in q[Due(q, now)..] <==> u in q && now < u.expireTime
  {
    var n := Due(q, now);
    assert q == q[..n] + q[n..];
    if u in q[n..] {
      var k :| n <= k < |q| && q[k] == u;
      assert q[n].expireTime <= q[k].expireTime;
    }
  }

  lemma {:induction false} RemoveOne(q: seq<Timer>, id: nat, u: Timer)
    ensures u.id != id ==> (u in Remove(q, id) <==> u in q)
    ensures |Remove(q, id)| == |q| - if exists v :: v in q && v.id == id then 1 else 0
  {
    if q != [] {
      assert q == [q[0]] + q[1..];
      RemoveOne(q[1..], id, u);
    }
  }
}
