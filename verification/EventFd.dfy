/** The eventfd that wakes a loop, and the flag beside it. */
module EventFd {
  const EVENTFD_MAX: nat := 0xffff_ffff_ffff_fffe

  /** The counter after a write of 1, which fails when the counter is full. */
  function Written(counter: nat): nat {
    if counter < EVENTFD_MAX then counter + 1 else counter
  }

  /** The counter after a tick. */
  function Kicked(kickMe: bool, counter: nat): nat {
    if kickMe then Written(counter) else counter
  }

  /** The flag that ticks set, and the counter. */
  datatype Kick = Kick(kicked: bool, counter: nat)
}
