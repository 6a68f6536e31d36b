/** How long one bounded wait on the child may last. */
module Schedule {
  import Timeout

  /** Sixty seconds: the longest single wait, so the longest gap between two "remaining" reports. */
  const PollInterval: int := 60 * Timeout.MicrosPerSecond

  /**
   `min(60, (killtime - now).total_seconds())`, in microseconds: a full
   interval while the deadline is further off, otherwise exactly the time left,
   so that the wait wakes up at the deadline.
   */
  function Quantum(remaining: int): (q: int)
    ensures q <= PollInterval && q <= remaining
    ensures q == PollInterval || q == remaining
    ensures remaining > 0 ==> q > 0
  {
    if remaining < PollInterval then remaining else PollInterval
  }
}
