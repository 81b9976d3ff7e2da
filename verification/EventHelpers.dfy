/** Registering a list of notifiers and taking it back. */
module EventHelpers {
  import opened Results
  import opened EventModel
  import opened EventRoundTrips
  import opened EventContext

  method GetNotifierRawFds(notifiers: seq<Notifier>) returns (rawFds: seq<Fd>)
    ensures rawFds == RawFds(notifiers)
    ensures |rawFds| == |notifiers| && forall i :: 0 <= i < |notifiers| ==> rawFds[i] == notifiers[i].rawFd
  {
    rawFds := [];
    for i := 0 to |notifiers|
      invariant |rawFds| == i && forall k :: 0 <= k < i ==> rawFds[k] == notifiers[k].rawFd
    {
      rawFds := rawFds + [notifiers[i].rawFd];
    }
    RawFdsAre(notifiers, rawFds);
  }

  method GetDeleteNotifiers(rawFds: seq<Fd>) returns (notifiers: seq<Notifier>)
    ensures notifiers == DeleteNotifiers(rawFds)
    ensures |notifiers| == |rawFds|
    ensures forall i :: 0 <= i < |rawFds| ==> notifiers[i] == Notifier(Delete, rawFds[i], None, {0}, [])
  {
    notifiers := [];
    for i := 0 to |rawFds|
      invariant |notifiers| == i && forall k :: 0 <= k < i ==> notifiers[k] == DeleteOf(rawFds[k])
    {
      notifiers := notifiers + [DeleteOf(rawFds[i])];
    }
    DeleteNotifiersAre(rawFds, notifiers);
  }

  lemma {:induction false} RawFdsAre(ns: seq<Notifier>, fds: seq<Fd>)
    requires |fds| == |ns| && forall i :: 0 <= i < |ns| ==> fds[i] == ns[i].rawFd
    ensures fds == RawFds(ns)
  {
    if ns != [] {
      RawFdsAre(ns[1..], fds[1..]);
    }
  }

  lemma {:induction false} DeleteNotifiersAre(fds: seq<Fd>, ns: seq<Notifier>)
    requires |ns| == |fds| && forall i :: 0 <= i < |fds| ==> ns[i] == DeleteOf(fds[i])
    ensures ns == DeleteNotifiers(fds)
  {
    if fds != [] {
      DeleteNotifiersAre(fds[1..], ns[1..]);
    }
  }

  /** The caller's record of what it registered. */
  class RecordedEvents {
    var fds: seq<Fd>

    constructor ()
      ensures fds == []
    {
      fds := [];
    }

    method Register(ctx: EventLoopContext, notifiers: seq<Notifier>, faults: seq<Faults>) returns (err: Option<Error>)
      requires ctx.Valid()
      modifies this, ctx`epoll, ctx`events, ctx`gc, ctx`boxes, ctx`kicked, ctx`kickEvent, ctx.boxes
      ensures ctx.Valid()
      ensures (ctx.View(), fds, err) == EventRoundTrips.Register(old(ctx.View()), notifiers, old(fds), faults)
      ensures err.Some? ==> fds == old(fds)
      ensures err.None? ==> fds == old(fds) + seq(|notifiers|, i requires 0 <= i < |notifiers| => notifiers[i].rawFd)
    {
      var notifiersFds := GetNotifierRawFds(notifiers);
      err := ctx.UpdateEvents(notifiers, faults);
      if err.None? {
        fds := fds + notifiersFds;
      }
    }

    method Unregister(ctx: EventLoopContext, faults: seq<Faults>) returns (err: Option<Error>)
      requires ctx.Valid()
      modifies this, ctx`epoll, ctx`events, ctx`gc, ctx`boxes, ctx`kicked, ctx`kickEvent, ctx.boxes
      ensures ctx.Valid() && (ctx.View(), fds, err) == EventRoundTrips.Unregister(old(ctx.View()), old(fds), faults)
      ensures fds == if err.None? then [] else old(fds)
    {
      var deletes := GetDeleteNotifiers(fds);
      err := ctx.UpdateEvents(deletes, faults);
      if err.None? {
        fds := [];
      }
    }
  }
}
