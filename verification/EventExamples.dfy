/** How the registry and the interest set come apart. */
module EventExamples {
  import opened Results
  import opened EventModel
  import opened EventDispatch

  /** A notifier for descriptor 3 that would displace descriptor 4. */
  const ADD_3: Notifier := Notifier(AddShared, 3, Some(4), {0}, [])

  /** On an empty loop the kernel takes the descriptor, the loop does not. */
  lemma OrphanExample()
    ensures var (s, err) := Apply(EMPTY, ADD_3, NO_FAULTS);
            && err == Some(NoParkedFd(4)) && s.events == map[]
            && s.epoll == map[3 := KernelEntry({0}, 0)] && Orphans(s) == {3}
  {
    assert EMPTY.epoll[3 := KernelEntry({0}, 0)] == map[3 := KernelEntry({0}, 0)];
  }

  /** When the kernel then reports the descriptor, the pointer it hands back is to a freed box. */
  lemma DanglingExample(h: Callbacks)
    ensures var s := Apply(EMPTY, ADD_3, NO_FAULTS).0;
            var batch := Wait(s.epoll, [(3, {0})]);
            |batch| == 1 && !Allocated(Before(s, batch, 0, h, []), batch[0].data)
  {
    OrphanExample();
    var s := Apply(EMPTY, ADD_3, NO_FAULTS).0;
    assert Wait(s.epoll, [(3, {0})]) == [Ready({0}, 0)] + Wait(s.epoll, []);
  }
}
