/** Network state and event interest of a connection: `NetworksPolicy`, `MultiplexerPolicy`, and
    the epoll registration they drive through `Multiplexer::update`. */
module Interest {

  datatype NetworkState = CONNECTING | CONNECTED | DISCONNECTING | DISCONNECTED {
    function Rank(): nat {
      match this
      case CONNECTING => 0
      case CONNECTED => 1
      case DISCONNECTING => 2
      case DISCONNECTED => 3
    }
  }

  datatype EventState = NEW | ADDED | DELETED

  /** `_events`: EVENT_READ and EVENT_WRITE are disjoint bit masks, so a set of two flags. */
  datatype Events = Events(read: bool, write: bool)

  const EVENT_NONE := Events(false, false)

  datatype Hint = CTL_NONE | CTL_ADD | CTL_MOD | CTL_DEL

  /** What the kernel holds for the socket. */
  datatype Registration = Unregistered | Registered(events: Events)

  datatype Policy = Policy(net: NetworkState, events: Events, state: EventState) {
    predicate IsOpen() {
      net.CONNECTED? || net.DISCONNECTING?
    }
  }

  const NEW_POLICY := Policy(CONNECTING, EVENT_NONE, NEW)

  // ----- MultiplexerPolicy -----

  /** `updateEventState`: the next state and the epoll operation it asks for. */
  function UpdateEventState(p: Policy): (Policy, Hint) {
    if p.state.NEW? || p.state.DELETED? then (p.(state := ADDED), CTL_ADD)
    else if p.events == EVENT_NONE then (p.(state := DELETED), CTL_DEL)
    else (p, CTL_MOD)
  }

  function EnableRead(p: Policy): Policy {
    p.(events := p.events.(read := true))
  }

  function EnableWrite(p: Policy): Policy {
    p.(events := p.events.(write := true))
  }

  function DisableRead(p: Policy): Policy {
    p.(events := p.events.(read := false))
  }

  function DisableWrite(p: Policy): Policy {
    p.(events := p.events.(write := false))
  }

  // ----- epoll_ctl -----

  /** epoll_ctl accepts ADD for an unregistered socket only, MOD and DEL for a registered one. */
  predicate LegalControl(k: Registration, hint: Hint) {
    match hint
    case CTL_NONE => true
    case CTL_ADD => k.Unregistered?
    case CTL_MOD => k.Registered?
    case CTL_DEL => k.Registered?
  }

  function Control(k: Registration, hint: Hint, events: Events): Registration
    requires LegalControl(k, hint)
  {
    match hint
    case CTL_NONE => k
    case CTL_ADD => Registered(events)
    case CTL_MOD => Registered(events)
    case CTL_DEL => Unregistered
  }

  // ----- transitions of the handlers -----

  /** `handleNewContext` up to the call of `updateEventState`. */
  function Connect(p: Policy): Policy {
    EnableRead(p.(net := CONNECTED))
  }

  /** `Context::shutdown` */
  function ShutDown(p: Policy): Policy {
    if p.net.CONNECTED? then p.(net := DISCONNECTING) else p
  }

  /** `handleClose` up to the call of `updateEventState`. */
  function StartClose(p: Policy): Policy {
    DisableWrite(DisableRead(ShutDown(p)))
  }

  function FinishClose(p: Policy): Policy {
    p.(net := DISCONNECTED)
  }

  // ----- what every transition keeps -----

  /** The kernel interest equals `_events` while the connection is open, and there is no
      registration before and after. */
  predicate Agrees(p: Policy, k: Registration) {
    match p.net
    case CONNECTING => p == NEW_POLICY && k.Unregistered?
    case DISCONNECTED => p.events == EVENT_NONE && p.state.DELETED? && k.Unregistered?
    case _ => p.events.read && p.state.ADDED? && k == Registered(p.events)
  }

  /** An update after a change of interest: what `updateEventState` and `Multiplexer::update` do. */
  function Updated(p: Policy, k: Registration): (Policy, Registration)
    requires LegalControl(k, UpdateEventState(p).1)
  {
    var (q, hint) := UpdateEventState(p);
    (q, Control(k, hint, q.events))
  }

  datatype Transition = Connecting | WriteOn | WriteOff | ShuttingDown | Closing

  /** When a handler makes the transition. */
  predicate Makes(p: Policy, t: Transition) {
    match t
    case Connecting => p.net.CONNECTING?
    case WriteOn => p.net.CONNECTED? && !p.events.write
    case WriteOff => p.IsOpen() && p.events.write
    case ShuttingDown => true
    case Closing => p.IsOpen()
  }

  /** The interest a transition asks for. */
  function Asked(p: Policy, t: Transition): Policy {
    match t
    case Connecting => Connect(p)
    case WriteOn => EnableWrite(p)
    case WriteOff => DisableWrite(p)
    case ShuttingDown => ShutDown(p)
    case Closing => StartClose(p)
  }

  function After(p: Policy, k: Registration, t: Transition): (Policy, Registration)
    requires t.ShuttingDown? || LegalControl(k, UpdateEventState(Asked(p, t)).1)
  {
    if t.ShuttingDown? then (ShutDown(p), k)
    else
      var (q, l) := Updated(Asked(p, t), k);
      (if t.Closing? then FinishClose(q) else q, l)
  }

  /** Every transition asks for a legal epoll operation, keeps the agreement of kernel and
      `_events`, and never moves the network state back. */
  lemma TransitionsAgree(p: Policy, k: Registration, t: Transition)
    requires Agrees(p, k) && Makes(p, t)
    ensures t.ShuttingDown? || LegalControl(k, UpdateEventState(Asked(p, t)).1)
    ensures var (q, l) := After(p, k, t);
            && Agrees(q, l) && p.net.Rank() <= q.net.Rank()
            && (q.net.DISCONNECTED? <==> t.Closing? || p.net.DISCONNECTED?)
  {
  }

  predicate IsRun(p: Policy, k: Registration, ts: seq<Transition>)
    requires Agrees(p, k)
    decreases |ts|
  {
    |ts| > 0 ==>
      Makes(p, ts[0]) &&
      (TransitionsAgree(p, k, ts[0]);
       var (q, l) := After(p, k, ts[0]);
       IsRun(q, l, ts[1..]))
  }

  function Closings(ts: seq<Transition>): nat {
    if |ts| == 0 then 0 else (if ts[0].Closing? then 1 else 0) + Closings(ts[1..])
  }

  function RunFrom(p: Policy, k: Registration, ts: seq<Transition>): (r: (Policy, Registration))
    requires Agrees(p, k) && IsRun(p, k, ts)
    ensures Agrees(r.0, r.1)
    decreases |ts|
  {
    if |ts| == 0 then (p, k)
    else
      TransitionsAgree(p, k, ts[0]);
      var (q, l) := After(p, k, ts[0]);
      RunFrom(q, l, ts[1..])
  }

  /** Over every run from a new connection there is at most one closing transition, there is one
      exactly if the run ends disconnected, and after it only ignored shutdowns happen. */
  lemma {:induction false} ClosesOnce(p: Policy, k: Registration, ts: seq<Transition>)
    requires Agrees(p, k) && IsRun(p, k, ts)
    ensures var q := RunFrom(p, k, ts).0;
            && p.net.Rank() <= q.net.Rank()
            && Closings(ts) == if q.net.DISCONNECTED? && !p.net.DISCONNECTED? then 1 else 0
    ensures p.net.DISCONNECTED? ==> forall i :: 0 <= i < |ts| ==> ts[i].ShuttingDown?
    decreases |ts|
  {
    if |ts| > 0 {
      TransitionsAgree(p, k, ts[0]);
      var (q, l) := After(p, k, ts[0]);
      ClosesOnce(q, l, ts[1..]);
      assert forall i :: 1 <= i < |ts| ==> ts[i] == ts[1..][i - 1];
    }
  }

  /** These transitions lead from one state of policy and kernel to another. */
  ghost predicate Moves(p: Policy, k: Registration, ts: seq<Transition>, q: Policy, l: Registration) {
    Agrees(p, k) && IsRun(p, k, ts) && RunFrom(p, k, ts) == (q, l)
  }

  lemma {:induction false} MovesOn(p: Policy, k: Registration, ts: seq<Transition>, q: Policy, l: Registration,
                                   t: Transition)
    requires Moves(p, k, ts, q, l) && Makes(q, t)
    ensures t.ShuttingDown? || LegalControl(l, UpdateEventState(Asked(q, t)).1)
    ensures Moves(p, k, ts + [t], After(q, l, t).0, After(q, l, t).1)
    decreases |ts|
  {
    TransitionsAgree(q, l, t);
    var more := ts + [t];
    if |ts| == 0 {
      assert more == [t] && more[1..] == [];
      assert RunFrom(After(p, k, t).0, After(p, k, t).1, []) == After(p, k, t);
    } else {
      TransitionsAgree(p, k, ts[0]);
      var (p1, k1) := After(p, k, ts[0]);
      MovesOn(p1, k1, ts[1..], q, l, t);
      assert more[1..] == ts[1..] + [t];
    }
  }

  /** What comes behind the first part of a run is a run from where that part leads. */
  lemma {:induction false} MovesBetween(p: Policy, k: Registration, first: seq<Transition>, q: Policy, l: Registration,
                                        ts: seq<Transition>, q1: Policy, l1: Registration)
    requires Moves(p, k, first, q, l) && Moves(p, k, ts, q1, l1) && first <= ts
    ensures Moves(q, l, ts[|first|..], q1, l1)
    decreases |first|
  {
    if |first| > 0 {
      TransitionsAgree(p, k, ts[0]);
      var (p1, k1) := After(p, k, ts[0]);
      MovesBetween(p1, k1, first[1..], q, l, ts[1..], q1, l1);
      assert ts[1..][|first| - 1..] == ts[|first|..];
    } else {
      assert ts[0..] == ts;
    }
  }
}
