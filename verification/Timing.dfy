/** The steady clock and the heartbeat constants (include/libuv_net/message.hpp:37-39). */
module Timing {

  const TICKS_PER_MS: nat := 1_000_000
  const HEARTBEAT_INTERVAL_MS: nat := 30000
  const HEARTBEAT_TIMEOUT_MS: nat := 90000

  /** The first distance in clock ticks that counts as a timeout: 90001 whole milliseconds. */
  const TIMEOUT_TICKS: nat := (HEARTBEAT_TIMEOUT_MS + 1) * TICKS_PER_MS

  /** An event and the tick at which it happens. */
  datatype Timed<E> = Timed(at: int, event: E)

  /** `duration_cast` to milliseconds truncates toward zero. */
  function ElapsedMs(start: int, now: int): int {
    if now >= start then (now - start) / TICKS_PER_MS else -((start - now) / TICKS_PER_MS)
  }

  /** The events happen in order, none before `start`. */
  predicate Ordered<E>(start: int, ts: seq<Timed<E>>)
    decreases |ts|
  {
    ts == [] || (start <= ts[0].at && Ordered(ts[0].at, ts[1..]))
  }

  /** Consecutive instants, from `start` through `times` to `end`, are at most `gap` ticks apart. */
  predicate Spaced(gap: nat, start: int, times: seq<int>, end: int)
    decreases |times|
  {
    if times == [] then end - start <= gap
    else times[0] - start <= gap && Spaced(gap, times[0], times[1..], end)
  }

  lemma OrderedLater<E>(start: int, later: int, ts: seq<Timed<E>>)
    requires start <= later && Ordered(later, ts)
    ensures Ordered(start, ts)
  {
  }
}
