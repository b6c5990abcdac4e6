/** Half-closing a socket: `Context::shutdown` does it at once or posts a task that polls for the
    moment, and `handleClose` calls it too. */
module HalfClose {
  import opened Interest

  /** A connection, whether its socket has been shut down for writing, and whether a posted task still
      polls. */
  datatype Life = Life(policy: Policy, registration: Registration, halfClosed: bool, deferred: bool)

  datatype Step = Make(t: Transition) | PollShutdown

  /** `shutdown` finds nothing left to write. */
  predicate ShutsAtOnce(p: Policy) {
    p.net.CONNECTED? && !p.events.write
  }

  /** Until `shutdown`, the socket is open for writing and no task polls. */
  predicate Inv(l: Life) {
    && Agrees(l.policy, l.registration)
    && (l.policy.net.Rank() <= CONNECTED.Rank() ==> !l.halfClosed && !l.deferred)
  }

  predicate Enabled(l: Life, step: Step) {
    match step
    case Make(t) => Makes(l.policy, t)
    case PollShutdown => l.deferred
  }

  /** The effect of `shutdown` on the socket: now, or by a posted task. */
  function ShutSocket(l: Life): Life {
    if !l.policy.net.CONNECTED? then l
    else if ShutsAtOnce(l.policy) then l.(halfClosed := true)
    else l.(deferred := true)
  }

  /** The polled functor of `shutdown`. */
  function Polled(l: Life): Life {
    if ShutsAtOnce(l.policy) then l.(halfClosed := true, deferred := false)
    else if !l.policy.net.CONNECTED? then l.(deferred := false)
    else l
  }

  function Next(l: Life, step: Step): Life
    requires Inv(l) && Enabled(l, step)
  {
    match step
    case Make(t) =>
      TransitionsAgree(l.policy, l.registration, t);
      var (q, k) := After(l.policy, l.registration, t);
      var m := if t.ShuttingDown? || t.Closing? then ShutSocket(l) else l;
      m.(policy := q, registration := k)
    case PollShutdown => Polled(l)
  }

  lemma NextKeepsInv(l: Life, step: Step)
    requires Inv(l) && Enabled(l, step)
    ensures Inv(Next(l, step)) && l.policy.net.Rank() <= Next(l, step).policy.net.Rank()
  {
    if step.Make? {
      TransitionsAgree(l.policy, l.registration, step.t);
    }
  }

  predicate IsRun(l: Life, steps: seq<Step>)
    requires Inv(l)
    decreases |steps|
  {
    |steps| > 0 ==>
      Enabled(l, steps[0]) && (NextKeepsInv(l, steps[0]); IsRun(Next(l, steps[0]), steps[1..]))
  }

  function RunFrom(l: Life, steps: seq<Step>): Life
    requires Inv(l) && IsRun(l, steps)
    decreases |steps|
  {
    if |steps| == 0 then l
    else
      NextKeepsInv(l, steps[0]);
      RunFrom(Next(l, steps[0]), steps[1..])
  }

  /** The posted task stops at its first poll, and has done nothing. */
  lemma PollGivesUp(l: Life)
    requires Inv(l) && l.deferred
    ensures Next(l, PollShutdown) == l.(deferred := false)
  {
  }

  /** Once a connection is no longer CONNECTED, its socket stays as it is. */
  lemma {:induction false} NothingShutsLater(l: Life, steps: seq<Step>)
    requires Inv(l) && IsRun(l, steps) && l.policy.net.Rank() >= DISCONNECTING.Rank()
    ensures RunFrom(l, steps).halfClosed == l.halfClosed
    decreases |steps|
  {
    if |steps| > 0 {
      NextKeepsInv(l, steps[0]);
      NothingShutsLater(Next(l, steps[0]), steps[1..]);
    }
  }

  /** Whatever follows a call of `shutdown` or `handleClose`, the socket is ever half-closed if and
      only if it was before, or the context was CONNECTED with write interest off at the call; a
      context that is not connected yet is left alone. */
  lemma ShutdownHalfClosesExactly(l: Life, steps: seq<Step>)
    requires Inv(l) && IsRun(l, steps)
    requires |steps| > 0 && steps[0].Make? && (steps[0].t.ShuttingDown? || steps[0].t.Closing?)
    ensures if l.policy.net.CONNECTING? then Next(l, steps[0]) == l
            else RunFrom(l, steps).halfClosed <==>
                   l.halfClosed || (l.policy.net.CONNECTED? && !l.policy.events.write)
  {
    if !l.policy.net.CONNECTING? {
      NextKeepsInv(l, steps[0]);
      NothingShutsLater(Next(l, steps[0]), steps[1..]);
    }
  }

  /** A socket is half-closed only by such a call, from a connection that was CONNECTED with write
      interest off. */
  lemma OnlyShutdownHalfCloses(l: Life, step: Step)
    requires Inv(l) && Enabled(l, step)
    ensures !l.halfClosed && Next(l, step).halfClosed <==>
              && step.Make? && (step.t.ShuttingDown? || step.t.Closing?)
              && l.policy.net.CONNECTED? && !l.policy.events.write
  {
  }

  /** The state of a new connection after these transitions, and no others. */
  ghost predicate Reached(l: Life, history: seq<Transition>) {
    Inv(l) && Moves(NEW_POLICY, Unregistered, history, l.policy, l.registration)
  }

  /** One transition more. */
  lemma ReachedOn(l: Life, history: seq<Transition>, t: Transition, m: Life)
    requires Reached(l, history) && Makes(l.policy, t) && m == Next(l, Make(t))
    ensures Reached(m, history + [t])
  {
    NextKeepsInv(l, Make(t));
    MovesOn(NEW_POLICY, Unregistered, history, l.policy, l.registration, t);
  }

  /** The epoll operation it asks for is legal. */
  lemma ReachedIsLegal(l: Life, history: seq<Transition>, t: Transition)
    requires Reached(l, history) && Makes(l.policy, t) && !t.ShuttingDown?
    ensures LegalControl(l.registration, UpdateEventState(Asked(l.policy, t)).1)
    ensures var (q, k) := Updated(Asked(l.policy, t), l.registration);
            Next(l, Make(t))
            == (if t.Closing? then ShutSocket(l) else l).(policy := if t.Closing? then FinishClose(q) else q,
                                                         registration := k)
  {
    TransitionsAgree(l.policy, l.registration, t);
  }

  lemma SameReached(l: Life, m: Life, history: seq<Transition>)
    requires l == m && Reached(l, history)
    ensures Reached(m, history)
  {
  }
}
