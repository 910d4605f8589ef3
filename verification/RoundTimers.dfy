/** The three timers that drive a node through its rounds, in microseconds. */
module RoundTimers {
  import opened Options

  datatype Kind = UPDATE | BROADCAST | RESPOND

  /** When each timer fires, if it is pending. */
  datatype Timers = Timers(update: Option<int>, broadcast: Option<int>, respond: Option<int>)

  function DueAt(t: Timers, kind: Kind): Option<int> {
    match kind
    case UPDATE => t.update
    case BROADCAST => t.broadcast
    case RESPOND => t.respond
  }

  /** No pending timer is due before an instant. */
  predicate NotBefore(t: Timers, instant: int) {
    && (t.update.Some? ==> instant <= t.update.value)
    && (t.broadcast.Some? ==> instant <= t.broadcast.value)
    && (t.respond.Some? ==> instant <= t.respond.value)
  }

  /**
   * The timer is pending and may fire before the node's others. Timers that are due at the same instant fire in the
   * order in which they were set, and a round's update is set last of all.
   */
  predicate FiresNext(t: Timers, kind: Kind) {
    && DueAt(t, kind).Some? && NotBefore(t, DueAt(t, kind).value)
    && (kind.UPDATE? ==> t.broadcast != t.update && t.respond != t.update)
  }

  /** The ranges of the random draws at the start of a round: the head's or member's delay, and the next round's. */
  predicate DrawsOk(head: bool, draw: int, nextDraw: int) {
    && (if head then 10_000 <= draw <= 50_000 else 0 <= draw <= 1000)
    && 0 <= nextDraw <= 1000
  }

  /** ns-3's timers end the program when they are set while they are pending, so that such a round never starts. */
  predicate MaySet(t: Timers, head: bool) {
    if head then t.broadcast == None else t.respond == None
  }

  /** A round starts: a head will advertise, any other node will answer, and the next round will start. */
  function Restarted(t: Timers, now: int, interval: int, head: bool, draw: int, nextDraw: int): Timers {
    if head then t.(broadcast := Some(now + draw), update := Some(now + interval + nextDraw))
    else t.(respond := Some(now + 100_000 + draw), update := Some(now + interval + nextDraw))
  }

  /** The timer has fired. */
  function Done(t: Timers, kind: Kind): Timers {
    match kind
    case UPDATE => t.(update := None)
    case BROADCAST => t.(broadcast := None)
    case RESPOND => t.(respond := None)
  }
}
