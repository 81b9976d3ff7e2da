/** The timer queue: a vector kept in order of expiry. Times are in nanoseconds. */
module TimerModel {
  import opened Results

  /** `id` stands for the address of the boxed timer, `func` for its callback. */
  datatype Timer = Timer(id: nat, func: nat, expireTime: nat)

  /** The first position whose timer expires later than `t`. */
  function Place(q: seq<Timer>, t: Timer): (i: nat)
    ensures i <= |q|
    ensures forall k :: 0 <= k < i ==> q[k].expireTime <= t.expireTime
    ensures i < |q| ==> t.expireTime < q[i].expireTime
  {
    if q == [] || t.expireTime < q[0].expireTime then 0 else 1 + Place(q[1..], t)
  }

  function Insert(q: seq<Timer>, t: Timer): seq<Timer> {
    q[..Place(q, t)] + [t] + q[Place(q, t)..]
  }

  /** Drops the first timer with that address, if there is one. */
  function Remove(q: seq<Timer>, id: nat): seq<Timer> {
    if q == [] then [] else if q[0].id == id then q[1..] else [q[0]] + Remove(q[1..], id)
  }

  /** How many timers at the front are due. */
  function Due(q: seq<Timer>, now: nat): (n: nat)
    ensures n <= |q|
    ensures forall k :: 0 <= k < n ==> q[k].expireTime <= now
    ensures n < |q| ==> now < q[n].expireTime
  {
    if q == [] || now < q[0].expireTime then 0 else 1 + Due(q[1..], now)
  }

  lemma {:induction false} PlaceIs(q: seq<Timer>, t: Timer, i: nat)
    requires i <= |q| && (i < |q| ==> t.expireTime < q[i].expireTime)
    requires forall k :: 0 <= k < i ==> q[k].expireTime <= t.expireTime
    ensures Place(q, t) == i
  {
    if i > 0 {
      PlaceIs(q[1..], t, i - 1);
    }
  }

  lemma {:induction false} DueIs(q: seq<Timer>, now: nat, n: nat)
    requires n <= |q| && (n < |q| ==> now < q[n].expireTime)
    requires forall k :: 0 <= k < n ==> q[k].expireTime <= now
    ensures Due(q, now) == n
  {
    if n > 0 {
      DueIs(q[1..], now, n - 1);
    }
  }

  /** Deletion takes out the first timer with that address. */
  lemma {:induction false} RemoveFirst(q: seq<Timer>, id: nat, i: nat)
    requires i < |q| && q[i].id == id && forall k :: 0 <= k < i ==> q[k].id != id
    ensures Remove(q, id) == q[..i] + q[i + 1..]
  {
    if i > 0 {
      RemoveFirst(q[1..], id, i - 1);
      assert q[..i] == [q[0]] + q[1..][..i - 1];
    }
  }

  lemma {:induction false} RemoveNothing(q: seq<Timer>, id: nat)
    requires forall k :: 0 <= k < |q| ==> q[k].id != id
    ensures Remove(q, id) == q
  {
    if q != [] {
      RemoveNothing(q[1..], id);
    }
  }

  ghost predicate Sorted(q: seq<Timer>) {
    forall i, j :: 0 <= i < j < |q| ==> q[i].expireTime <= q[j].expireTime
  }

  /** The loop's next timeout: none, or what is left until the first expiry, never negative. */
  function MinDuration(q: seq<Timer>, now: nat): (d: Option<nat>)
  {
    if q == [] then None else Some(if q[0].expireTime > now then q[0].expireTime - now else 0)
  }

  /** The queue's minimum is the minimum of all pending expiries. */
  lemma MinDurationIsLeast(q: seq<Timer>, now: nat)
    requires Sorted(q)
    ensures q == [] <==> MinDuration(q, now).None?
    ensures forall t :: t in q ==> now + MinDuration(q, now).value <= t.expireTime || t.expireTime <= now
    ensures (exists t :: t in q && t.expireTime <= now) <==> MinDuration(q, now) == Some(0)
    ensures q != [] && MinDuration(q, now) != Some(0) ==>
              exists t :: t in q && t.expireTime == now + MinDuration(q, now).value
  {
    if q != [] {
      assert q[0] in q;
    }
  }
}

/** The timer queue over whole histories. */
module TimerHistories {
  import opened TimerModel

  datatype Op =
    | Add(id: nat, delay: nat, now: nat)
    | Del(id: nat)
    | RunDue(now: nat)

  /** The queue, and every timer ever added, fired and deleted, each in order. A timer's callback is numbered by
      its place among the adds, so that ties can be told apart. */
  datatype World = World(queue: seq<Timer>, added: seq<Timer>, fired: seq<Timer>, deleted: seq<Timer>)

  const START := World([], [], [], [])

  function Step(w: World, op: Op): World {
    match op
    case Add(id, delay, now) =>
      var t := Timer(id, |w.added|, now + delay);
      w.(queue := Insert(w.queue, t), added := w.added + [t])
    case Del(id) =>
      w.(queue := Remove(w.queue, id), deleted := w.deleted + Removed(w.queue, id))
    case RunDue(now) =>
      var n := Due(w.queue, now);
      w.(queue := w.queue[n..], fired := w.fired + w.queue[..n])
  }

  /** What `Remove` takes out. */
  function Removed(q: seq<Timer>, id: nat): seq<Timer> {
    if q == [] then [] else if q[0].id == id then [q[0]] else Removed(q[1..], id)
  }

  function Run(w: World, ops: seq<Op>): World
    decreases |ops|
  {
    if ops == [] then w else Run(Step(w, ops[0]), ops[1..])
  }

  /** Before in the queue: expires earlier, or at the same time but was added earlier. */
  predicate Before(a: Timer, b: Timer) {
    a.expireTime < b.expireTime || (a.expireTime == b.expireTime && a.func < b.func)
  }

  ghost predicate Ordered(q: seq<Timer>) {
    forall i, j :: 0 <= i < j < |q| ==> Before(q[i], q[j])
  }

  ghost predicate Inv(w: World) {
    && Ordered(w.queue)
    && (forall i :: 0 <= i < |w.added| ==> w.added[i].func == i)
    && multiset(w.added) == multiset(w.queue) + multiset(w.fired) + multiset(w.deleted)
  }

  lemma QueueWasAdded(w: World, i: nat)
    requires Inv(w) && i < |w.queue|
    ensures w.queue[i] in w.added && w.queue[i].func < |w.added|
  {
    assert w.queue[i] in multiset(w.queue);
    assert w.queue[i] in multiset(w.added);
  }

  /** A timer added later than all others goes behind every timer that expires no later. */
  lemma InsertOrdered(q: seq<Timer>, t: Timer)
    requires Ordered(q) && forall i :: 0 <= i < |q| ==> q[i].func < t.func
    ensures Ordered(Insert(q, t))
  {
    var p, r := Place(q, t), Insert(q, t);
    forall i, j | 0 <= i < j < |r| ensures Before(r[i], r[j]) {
      if i < p {
        assert r[i] == q[i];
        assert j < p ==> r[j] == q[j];
        assert j > p ==> r[j] == q[j - 1];
      } else {
        assert r[j] == q[j - 1];
        assert i > p ==> r[i] == q[i - 1];
        assert i == p && p < j - 1 ==> Before(q[p], q[j - 1]);
      }
    }
  }

  lemma InsertContents(q: seq<Timer>, t: Timer)
    ensures multiset(Insert(q, t)) == multiset(q) + multiset{t}
  {
    var p := Place(q, t);
    assert q == q[..p] + q[p..];
  }

  lemma AddHolds(w: World, id: nat, delay: nat, now: nat)
    requires Inv(w)
    ensures Inv(Step(w, Add(id, delay, now)))
  {
    var t := Timer(id, |w.added|, now + delay);
    forall i | 0 <= i < |w.queue| ensures w.queue[i].func < t.func {
      QueueWasAdded(w, i);
    }
    InsertOrdered(w.queue, t);
    InsertContents(w.queue, t);
    var w' := Step(w, Add(id, delay, now));
    assert w'.queue == Insert(w.queue, t) && w'.fired == w.fired && w'.deleted == w.deleted;
    assert multiset(w'.added) == multiset(w.added) + multiset{t} by {
      assert w'.added == w.added + [t];
    }
  }

  lemma {:induction false} RemoveSplits(q: seq<Timer>, id: nat)
    ensures multiset(q) == multiset(Remove(q, id)) + multiset(Removed(q, id))
    ensures |Removed(q, id)| <= 1
  {
    if q != [] {
      assert q == [q[0]] + q[1..];
      if q[0].id != id {
        RemoveSplits(q[1..], id);
      }
    }
  }

  lemma ConsOrdered(t: Timer, rest: seq<Timer>)
    requires Ordered(rest) && forall x :: x in rest ==> Before(t, x)
    ensures Ordered([t] + rest)
  {
  }

  lemma {:induction false} RemoveOrdered(q: seq<Timer>, id: nat)
    requires Ordered(q)
    ensures Ordered(Remove(q, id))
    ensures forall t :: t in Remove(q, id) ==> t in q
  {
    if q != [] && q[0].id != id {
      RemoveOrdered(q[1..], id);
      forall x | x in q[1..] ensures Before(q[0], x) {
        var i :| 1 <= i < |q| && q[i] == x;
      }
      ConsOrdered(q[0], Remove(q[1..], id));
    }
  }

  lemma StepHolds(w: World, op: Op)
    requires Inv(w)
    ensures Inv(Step(w, op))
  {
    match op
    case Add(id, delay, now) => AddHolds(w, id, delay, now);
    case Del(id) =>
      RemoveSplits(w.queue, id);
      RemoveOrdered(w.queue, id);
    case RunDue(now) =>
      var n := Due(w.queue, now);
      assert w.queue == w.queue[..n] + w.queue[n..];
  }

  /** Over every history: the queue is in order of expiry, ties in order of addition, and every timer added is
      exactly one of pending, fired and deleted. */
  lemma {:induction false} QueueHolds(w: World, ops: seq<Op>)
    requires Inv(w)
    ensures Inv(Run(w, ops))
    decreases |ops|
  {
    if ops != [] {
      StepHolds(w, ops[0]);
      QueueHolds(Step(w, ops[0]), ops[1..]);
    }
  }

  lemma {:induction false} AddedOnce(added: seq<Timer>, t: Timer)
    requires forall i :: 0 <= i < |added| ==> added[i].func == i
    ensures multiset(added)[t] <= 1
  {
    if added != [] {
      var last := |added| - 1;
      assert added == added[..last] + [added[last]];
      AddedOnce(added[..last], t);
      if t == added[last] {
        assert t !in added[..last];
      }
    }
  }

  /** No timer fires twice, and none fires after it was deleted. */
  lemma FiresOnce(ops: seq<Op>, t: Timer)
    ensures var w := Run(START, ops);
            multiset(w.fired)[t] + multiset(w.deleted)[t] + multiset(w.queue)[t] == multiset(w.added)[t] <= 1
  {
    QueueHolds(START, ops);
    AddedOnce(Run(START, ops).added, t);
  }

  lemma NotDueAfter(q: seq<Timer>, now: nat, k: nat)
    requires Ordered(q) && Due(q, now) <= k < |q|
    ensures q[k].expireTime > now
  {
    var n := Due(q, now);
    assert k == n || Before(q[n], q[k]);
  }

  lemma DueSplits(q: seq<Timer>, now: nat)
    requires Ordered(q)
    ensures var n := Due(q, now);
            && (forall t :: t in q[..n] <==> t in q && t.expireTime <= now)
            && (forall t :: t in q[n..] <==> t in q && t.expireTime > now)
  {
    var n := Due(q, now);
    assert q == q[..n] + q[n..];
    forall k | n <= k < |q| ensures q[k].expireTime > now {
      NotDueAfter(q, now, k);
    }
  }

  /** In any history, running the due timers takes exactly those whose time has come, in order. */
  lemma RunsExactlyDue(ops: seq<Op>, now: nat)
    ensures var w := Run(START, ops);
            var n := Due(w.queue, now);
            && (forall t :: t in w.queue[..n] <==> t in w.queue && t.expireTime <= now)
            && (forall t :: t in w.queue[n..] <==> t in w.queue && t.expireTime > now)
            && Ordered(w.queue[..n])
  {
    QueueHolds(START, ops);
    DueSplits(Run(START, ops).queue, now);
  }

  lemma HeadFirst(q: seq<Timer>, t: Timer)
    requires Ordered(q) && t in q
    ensures t == q[0] || Before(q[0], t)
  {
    var i :| 0 <= i < |q| && q[i] == t;
    assert i == 0 || Before(q[0], q[i]);
  }

  lemma SameHead(q: seq<Timer>, r: seq<Timer>)
    requires Ordered(q) && Ordered(r) && q != [] && r != []
    requires q[0] in r && r[0] in q
    ensures q[0] == r[0]
  {
    HeadFirst(r, q[0]);
    HeadFirst(q, r[0]);
  }

  lemma TailContents(q: seq<Timer>)
    requires q != []
    ensures multiset(q[1..]) == multiset(q) - multiset{q[0]}
  {
    assert q == [q[0]] + q[1..];
  }

  /** The order leaves no choice: the queue is the one arrangement of what is pending, whatever the history. */
  lemma {:induction false} OrderIsUnique(q: seq<Timer>, r: seq<Timer>)
    requires Ordered(q) && Ordered(r) && multiset(q) == multiset(r)
    ensures q == r
  {
    assert |multiset(q)| == |q| && |multiset(r)| == |r|;
    if q != [] {
      assert q[0] in multiset(r) && r[0] in multiset(q);
      SameHead(q, r);
      TailContents(q);
      TailContents(r);
      OrderIsUnique(q[1..], r[1..]);
      assert q == [q[0]] + q[1..] && r == [r[0]] + r[1..];
    }
  }

  // ---- Addresses as timer ids ----

  ghost predicate UniqueIds(q: seq<Timer>) {
    forall i, j :: 0 <= i < j < |q| ==> q[i].id != q[j].id
  }

  /** No timer is added at the address of a pending one. */
  ghost predicate FreshIds(w: World, ops: seq<Op>)
    decreases |ops|
  {
    ops != [] ==>
      && (ops[0].Add? ==> forall i :: 0 <= i < |w.queue| ==> w.queue[i].id != ops[0].id)
      && FreshIds(Step(w, ops[0]), ops[1..])
  }

  lemma InsertUnique(q: seq<Timer>, t: Timer)
    requires UniqueIds(q) && forall i :: 0 <= i < |q| ==> q[i].id != t.id
    ensures UniqueIds(Insert(q, t))
  {
    var p, r := Place(q, t), Insert(q, t);
    assert forall i :: 0 <= i < p ==> r[i] == q[i];
    assert forall i :: p < i < |r| ==> r[i] == q[i - 1];
  }

  /** With unique addresses the one timer at that address goes, wherever it stands. */
  lemma RemoveUnique(q: seq<Timer>, i: nat)
    requires UniqueIds(q) && i < |q|
    ensures Remove(q, q[i].id) == q[..i] + q[i + 1..] && UniqueIds(Remove(q, q[i].id))
  {
    RemoveFirst(q, q[i].id, i);
  }

  lemma StepUnique(w: World, op: Op)
    requires UniqueIds(w.queue)
    requires op.Add? ==> forall i :: 0 <= i < |w.queue| ==> w.queue[i].id != op.id
    ensures UniqueIds(Step(w, op).queue)
  {
    match op
    case Add(id, delay, now) => InsertUnique(w.queue, Timer(id, |w.added|, now + delay));
    case RunDue(now) =>
    case Del(id) =>
      if i :| 0 <= i < |w.queue| && w.queue[i].id == id {
        RemoveUnique(w.queue, i);
      } else {
        RemoveNothing(w.queue, id);
      }
  }

  lemma {:induction false} RunUnique(w: World, ops: seq<Op>)
    requires UniqueIds(w.queue) && FreshIds(w, ops)
    ensures UniqueIds(Run(w, ops).queue)
    decreases |ops|
  {
    if ops != [] {
      StepUnique(w, ops[0]);
      RunUnique(Step(w, ops[0]), ops[1..]);
    }
  }

  /** In any history that gives no pending timer's address away, deleting a pending timer by its address takes out
      exactly that timer and leaves the others in their order. */
  lemma DeletesExactly(ops: seq<Op>, i: nat)
    requires FreshIds(START, ops) && i < |Run(START, ops).queue|
    ensures var w := Run(START, ops); var w' := Step(w, Del(w.queue[i].id));
            w'.queue == w.queue[..i] + w.queue[i + 1..] && w'.deleted == w.deleted + [w.queue[i]]
  {
    RunUnique(START, ops);
    var q := Run(START, ops).queue;
    RemoveUnique(q, i);
    RemovedFirst(q, q[i].id, i);
  }

  lemma {:induction false} RemovedFirst(q: seq<Timer>, id: nat, i: nat)
    requires i < |q| && q[i].id == id && forall k :: 0 <= k < i ==> q[k].id != id
    ensures Removed(q, id) == [q[i]]
  {
    if i > 0 {
      RemovedFirst(q[1..], id, i - 1);
    }
  }
}
