/** One turn of the reactor, `BaseServer::batch`, with its own multiplexer: poll, accept, handle the
    events, run the looper.  Epoll events carry raw bundle pointers, and accept may free bundles
    between the poll and the handling of its events. */
module Reactor {
  import opened Pools
  import opened Interest

  /** What the server knows of an allocated bundle: its token, its context's state, and whether a
      strong lifecycle guard is held. */
  datatype Connection = Connection(token: nat, policy: Policy, guarded: bool)

  /** An epoll event: `data.ptr` is the bundle. */
  datatype Event = Event(bundle: Bundle)

  /** What user code does, in callbacks and in tasks of the looper. */
  datatype UserAct =
    | Sends(bundle: Bundle)       // a send that turns write interest on
    | ShutsDown(bundle: Bundle)   // Context::shutdown
    | Guards(bundle: Bundle, on: bool)

  /** What happens while an event is handled. */
  datatype EventAct =
    | Close                       // handleClose of the event's bundle
    | Drained                     // handleWrite of the event's bundle has emptied the buffer
    | ByUser(act: UserAct)

  /** Where user code throws something that is no `std::exception`: it leaves the turn there. */
  datatype Escape = Nowhere | FromConnect | FromEvent(at: nat)

  /** What the outside world does in one turn; `seen` is what the pool's sweep steps observe. */
  datatype Turn = Turn(ready: seq<Event>, incoming: bool, seen: Seen, onConnect: seq<UserAct>,
                       onEvent: seq<seq<EventAct>>, tasks: seq<UserAct>, escape: Escape)

  /** One observation for each sweep step of an accept. */
  type Seen = s: seq<set<Bundle>> | |s| == STEP witness [{}, {}]

  /** How many of `n` filed events are handled. */
  function Handled(escape: Escape, n: nat): nat {
    if escape.FromEvent? && escape.at < n then escape.at + 1 else n
  }

  /** The record of handling these events with all bundles allocated. */
  function Dispatches(events: seq<Event>): (d: seq<(Bundle, bool)>)
    ensures |d| == |events|
    ensures forall i :: 0 <= i < |d| ==> d[i] == (events[i].bundle, true)
  {
    seq(|events|, i requires 0 <= i < |events| => (events[i].bundle, true))
  }

  /** The record of polling these tasks with all contexts allocated. */
  function Polls(tasks: seq<Bundle>): (d: seq<(Bundle, bool)>)
    ensures |d| == |tasks|
    ensures forall i :: 0 <= i < |d| ==> d[i] == (tasks[i], true)
  {
    seq(|tasks|, i requires 0 <= i < |tasks| => (tasks[i], true))
  }

  /** Events of sockets that are registered: epoll reports no others. */
  function Reported(ready: seq<Event>, epoll: map<Bundle, Events>): (r: seq<Event>)
    ensures forall e :: e in r ==> e.bundle in epoll
  {
    if |ready| == 0 then []
    else (if ready[0].bundle in epoll then [ready[0]] else []) + Reported(ready[1..], epoll)
  }

  /** Every ready event of a registered socket is reported, as often as it is ready, and no other. */
  lemma {:induction false} ReportedExactly(ready: seq<Event>, epoll: map<Bundle, Events>, e: Event)
    ensures multiset(Reported(ready, epoll))[e] == if e.bundle in epoll then multiset(ready)[e] else 0
  {
    if |ready| > 0 {
      ReportedExactly(ready[1..], epoll, e);
      assert ready == [ready[0]] + ready[1..];
    }
  }

  predicate HasClose(acts: seq<EventAct>) {
    exists i :: 0 <= i < |acts| && acts[i].Close?
  }

  lemma HasCloseAppend(acts: seq<EventAct>, i: nat)
    requires i < |acts|
    ensures HasClose(acts[..i + 1]) <==> HasClose(acts[..i]) || acts[i].Close?
  {
    var more := acts[..i + 1];
    assert forall k :: 0 <= k < i ==> more[k] == acts[..i][k];
    assert more[i] == acts[i];
  }

  /** What an act leaves behind in its context. */
  predicate HasActed(act: UserAct, c: Connection) {
    match act
    case Sends(_) => c.policy.net.CONNECTED? ==> c.policy.events.write
    case ShutsDown(_) => !c.policy.net.CONNECTED?
    case Guards(_, on) => c.guarded == on
  }

  function ActsAt(onEvent: seq<seq<EventAct>>, i: nat): seq<EventAct> {
    if i < |onEvent| then onEvent[i] else []
  }

  /** The bundles that are closed while the first `n` events are handled. */
  function ClosedBy(events: seq<Event>, onEvent: seq<seq<EventAct>>, n: nat): set<Bundle>
    requires n <= |events|
  {
    if n == 0 then {}
    else ClosedBy(events, onEvent, n - 1) + ClosedAt(events[n - 1].bundle, ActsAt(onEvent, n - 1))
  }

  lemma {:induction false} ClosedByExactly(events: seq<Event>, onEvent: seq<seq<EventAct>>, n: nat, b: Bundle)
    requires n <= |events|
    ensures b in ClosedBy(events, onEvent, n)
       <==> exists i, k :: 0 <= i < n && i < |onEvent| && events[i].bundle == b
                           && 0 <= k < |onEvent[i]| && onEvent[i][k].Close?
  {
    if n > 0 {
      ClosedByExactly(events, onEvent, n - 1, b);
      if events[n - 1].bundle == b && HasClose(ActsAt(onEvent, n - 1)) {
        var k :| 0 <= k < |onEvent[n - 1]| && onEvent[n - 1][k].Close?;
        assert events[n - 1].bundle == b && onEvent[n - 1][k].Close?;
      }
    }
  }

  function ClosedAt(b: Bundle, acts: seq<EventAct>): set<Bundle> {
    if HasClose(acts) then {b} else {}
  }

  lemma StepOfHandling(events: seq<Event>, onEvent: seq<seq<EventAct>>, n: nat,
                       was: seq<(Bundle, bool)>, record: seq<(Bundle, bool)>, open: set<Bundle>, now: set<Bundle>)
    requires n < |events| && record == was + Dispatches(events)[..n]
    requires now == open - ClosedBy(events, onEvent, n)
    ensures record + [(events[n].bundle, true)] == was + Dispatches(events)[..n + 1]
    ensures now - ClosedAt(events[n].bundle, ActsAt(onEvent, n)) == open - ClosedBy(events, onEvent, n + 1)
  {
    var d := Dispatches(events);
    assert d[..n + 1] == d[..n] + [d[n]];
  }

  lemma NothingHandled(events: seq<Event>, was: seq<(Bundle, bool)>)
    ensures was + Dispatches(events)[..0] == was
  {
  }

  /** The open contexts after a turn. */
  function OpenAfter(open: set<Bundle>, next: Bundle, turn: Turn, events: seq<Event>): set<Bundle> {
    var accepted := if turn.incoming then open + {next} else open;
    if turn.incoming && turn.escape.FromConnect? then accepted
    else accepted - ClosedBy(events, turn.onEvent, Handled(turn.escape, |events|))
  }

  /** How many connections wait in these turns. */
  function Incoming(turns: seq<Turn>): nat {
    if |turns| == 0 then 0 else Incoming(turns[..|turns| - 1]) + (if turns[|turns| - 1].incoming then 1 else 0)
  }

  class Server {
    const token: nat
    const pool: ConnectionPool
    var contexts: map<Bundle, Connection>    // the allocated bundles
    var epoll: map<Bundle, Events>           // the registrations of the multiplexer
    var eventVectors: seq<seq<Event>>        // Multiplexer::_evnetVectors
    var eventBuffer: seq<Event>              // Handler::_eventBuffer
    var next: Bundle                         // the next allocation
    var shutdowns: seq<Bundle>               // the looper's tasks of Context::shutdown, by raw pointer
    ghost var dispatched: seq<(Bundle, bool)>   // handled bundles, and whether they were allocated
    ghost var polled: seq<(Bundle, bool)>       // the same for polled tasks

    function RegistrationOf(b: Bundle): Registration
      reads this`epoll
    {
      if b in epoll then Registered(epoll[b]) else Unregistered
    }

    /** Every allocated bundle has a context whose state agrees with the kernel, and the kernel
        knows allocated bundles only. */
    ghost predicate ContextsAgree()
      reads this`contexts, this`epoll, this`next
    {
      && (forall b :: b in contexts ==>
            && b < next && contexts[b].token == token
            && Agrees(contexts[b].policy, RegistrationOf(b)))
      && epoll.Keys <= contexts.Keys
    }

    /** The context of every task is allocated and no longer CONNECTED. */
    ghost predicate TasksAlive()
      reads this`contexts, this`shutdowns
    {
      forall i :: 0 <= i < |shutdowns| ==>
        shutdowns[i] in contexts && contexts[shutdowns[i]].policy.net.Rank() >= DISCONNECTING.Rank()
    }

    /** The pool owns exactly the allocated bundles, each in one slot. */
    ghost predicate PoolAgrees()
      reads this`contexts, pool
    {
      pool.Abs().Valid() && OwnExactly(pool.container, contexts.Keys)
    }

    ghost predicate Valid()
      reads this, pool
    {
      && ContextsAgree() && PoolAgrees() && TasksAlive()
      && token == 0 && |eventVectors| == 1
      && (forall i :: 0 <= i < |dispatched| ==> dispatched[i].1)
      && forall i :: 0 <= i < |polled| ==> polled[i].1
    }

    /** Between two turns: no event is waiting, and the context of every task is open. */
    ghost predicate Idle()
      reads this
    {
      && |eventVectors| == 1 && eventVectors[0] == [] && eventBuffer == []
      && TasksOpen(0)
    }

    ghost predicate TasksOpen(from: nat)
      reads this`contexts, this`shutdowns
    {
      forall i :: from <= i < |shutdowns| ==> shutdowns[i] in Open()
    }

    constructor ()
      ensures Valid() && Idle() && dispatched == polled == [] && fresh(pool)
    {
      token := 0;
      pool := new ConnectionPool();
      contexts, epoll := map[], map[];
      eventVectors, eventBuffer, next, shutdowns, dispatched, polled := [[]], [], 0, [], [], [];
      new;
      assert forall k :: 0 <= k < PREFETCH ==> pool.container[k] == Empty;
      assert forall b: Bundle :: Owns(b) !in pool.container;
    }

    /** `Multiplexer::poll` and `dispatchActiveContext`: files each event under the token found
        through its bundle pointer. */
    method Poll(ready: seq<Event>)
      requires Valid() && Idle()
      modifies this`eventVectors
      ensures Valid() && eventBuffer == [] && TasksOpen(0)
      ensures eventVectors == [Reported(ready, epoll)]
    {
      var events := Reported(ready, epoll);
      var i := 0;
      while i < |events|
        invariant 0 <= i <= |events|
        invariant eventVectors == [events[..i]]
      {
        assert events[i] in events;
        assert events[..i + 1] == events[..i] + [events[i]];
        var index := contexts[events[i].bundle].token;
        eventVectors := eventVectors[index := eventVectors[index] + [events[i]]];
        i := i + 1;
      }
      assert events[..i] == events;
    }

    /** The bundles whose context is disconnected and unguarded. */
    function Reusable(): set<Bundle>
      reads this`contexts
    {
      set b | b in contexts && contexts[b].policy.net.DISCONNECTED? && !contexts[b].guarded
    }

    /** `updateEventState` and `Multiplexer::update` for the transition `t` of a context. */
    method Transit(b: Bundle, t: Transition)
      requires ContextsAgree() && b in contexts && Makes(contexts[b].policy, t)
      modifies this`contexts, this`epoll
      ensures ContextsAgree() && contexts.Keys == old(contexts.Keys)
      ensures contexts[b].policy.net.Rank() >= old(contexts[b].policy.net.Rank())
      ensures (contexts[b].policy, RegistrationOf(b))
           == After(old(contexts[b].policy), old(RegistrationOf(b)), t)
      ensures forall c :: c in contexts && c != b ==>
                contexts[c] == old(contexts)[c] && RegistrationOf(c) == old(RegistrationOf(c))
    {
      var c := contexts[b];
      TransitionsAgree(c.policy, RegistrationOf(b), t);
      var (policy, registration) := After(c.policy, RegistrationOf(b), t);
      contexts := contexts[b := c.(policy := policy)];
      match registration
      case Registered(events) => epoll := epoll[b := events];
      case Unregistered => epoll := epoll - {b};
    }

    /** The contexts that are open. */
    ghost function Open(): set<Bundle>
      reads this`contexts
    {
      set b | b in contexts && contexts[b].policy.IsOpen()
    }

    /** `Context::shutdown`, called by user code or by `handleClose` before its transition `t`: with
        bytes still buffered it posts a task. */
    method ShutDown(b: Bundle, t: Transition)
      requires ContextsAgree() && TasksAlive() && b in contexts && Makes(contexts[b].policy, t)
      requires t.ShuttingDown? || t.Closing?
      modifies this`contexts, this`epoll, this`shutdowns
      ensures ContextsAgree() && TasksAlive() && contexts.Keys == old(contexts.Keys)
      ensures if old(contexts[b].policy.net.CONNECTED? && contexts[b].policy.events.write)
              then shutdowns == old(shutdowns) + [b] else shutdowns == old(shutdowns)
      ensures Open() == old(Open()) - (if t.Closing? then {b} else {})
      ensures !contexts[b].policy.net.CONNECTED?
    {
      var posts := contexts[b].policy.net.CONNECTED? && contexts[b].policy.events.write;
      Transit(b, t);
      if posts {
        shutdowns := shutdowns + [b];
      }
    }

    /** User code may name any allocated context; it opens and closes none. */
    method ActByUser(act: UserAct)
      requires ContextsAgree() && TasksAlive()
      modifies this`contexts, this`epoll, this`shutdowns
      ensures ContextsAgree() && TasksAlive() && contexts.Keys == old(contexts.Keys) && Open() == old(Open())
      ensures old(shutdowns) <= shutdowns && TasksOpen(|old(shutdowns)|)
      ensures act.bundle in contexts ==> HasActed(act, contexts[act.bundle])
    {
      match act
      case Sends(b) =>
        if b in contexts && contexts[b].policy.net.CONNECTED? && !contexts[b].policy.events.write {
          Transit(b, WriteOn);
        }
      case ShutsDown(b) =>
        if b in contexts {
          ShutDown(b, ShuttingDown);
        }
      case Guards(b, on) =>
        if b in contexts {
          contexts := contexts[b := contexts[b].(guarded := on)];
        }
    }

    method ActAllByUser(acts: seq<UserAct>)
      requires ContextsAgree() && TasksAlive()
      modifies this`contexts, this`epoll, this`shutdowns
      ensures ContextsAgree() && TasksAlive() && contexts.Keys == old(contexts.Keys) && Open() == old(Open())
      ensures old(shutdowns) <= shutdowns && TasksOpen(|old(shutdowns)|)
    {
      for i := 0 to |acts|
        invariant ContextsAgree() && TasksAlive() && contexts.Keys == old(contexts.Keys) && Open() == old(Open())
        invariant old(shutdowns) <= shutdowns && TasksOpen(|old(shutdowns)|)
      {
        ActByUser(acts[i]);
      }
    }

    /** Handlers and user code, while the event of `bundle` is handled. */
    method ActOnEvent(act: EventAct, bundle: Bundle)
      requires ContextsAgree() && TasksAlive() && bundle in contexts
      modifies this`contexts, this`epoll, this`shutdowns
      ensures ContextsAgree() && TasksAlive() && contexts.Keys == old(contexts.Keys)
      ensures Open() == old(Open()) - (if act.Close? then {bundle} else {})
      ensures act.Drained? && bundle in Open() ==> !contexts[bundle].policy.events.write
    {
      match act
      case Close =>
        if contexts[bundle].policy.net.CONNECTED? || contexts[bundle].policy.net.DISCONNECTING? {
          ShutDown(bundle, Closing);
        }
      case Drained =>
        if contexts[bundle].policy.IsOpen() && contexts[bundle].policy.events.write {
          Transit(bundle, WriteOff);
        }
      case ByUser(u) =>
        ActByUser(u);
    }

    /** `Handler::handleEvent` on a bundle: it has to be allocated.  It is closed exactly if the handler
        closes it, and no other bundle is. */
    method HandleEvent(bundle: Bundle, acts: seq<EventAct>)
      requires ContextsAgree() && TasksAlive() && bundle in contexts
      modifies this`contexts, this`epoll, this`shutdowns
      ensures ContextsAgree() && TasksAlive() && contexts.Keys == old(contexts.Keys)
      ensures Open() == old(Open()) - ClosedAt(bundle, acts)
    {
      for i := 0 to |acts|
        invariant ContextsAgree() && TasksAlive() && contexts.Keys == old(contexts.Keys)
        invariant Open() == old(Open()) - ClosedAt(bundle, acts[..i])
      {
        ActOnEvent(acts[i], bundle);
        HasCloseAppend(acts, i);
      }
      assert acts[..|acts|] == acts;
    }

    /** Exactly the open contexts are registered. */
    lemma OpenAreRegistered()
      requires ContextsAgree()
      ensures Open() == epoll.Keys
    {
      forall b | b in contexts ensures b in epoll <==> contexts[b].policy.IsOpen() {
        assert Agrees(contexts[b].policy, RegistrationOf(b));
      }
    }

    /** A registered socket has an open context, and an open context is not reusable. */
    lemma RegisteredIsNotReusable(b: Bundle)
      requires ContextsAgree() && b in epoll
      ensures b in contexts && contexts[b].policy.IsOpen() && b !in Reusable()
    {
      assert Agrees(contexts[b].policy, RegistrationOf(b));
    }

    /** `Pool::emplace`: the new bundle is not registered yet, and a freed bundle never is. */
    method Emplace(b: Bundle, seen: Seen)
      requires ContextsAgree() && PoolAgrees() && b == next
      modifies this`contexts, this`next, pool
      ensures ContextsAgree() && PoolAgrees()
      ensures b in contexts && contexts[b].policy == NEW_POLICY
      ensures forall c :: c in old(contexts) && c !in old(Reusable()) ==>
                c in contexts && contexts[c] == old(contexts)[c]
      ensures forall c :: c in contexts && c != b ==> c in old(contexts) && contexts[c] == old(contexts)[c]
      ensures next == b + 1
    {
      EmplacedOwns(pool.Abs(), b, seen, Reusable(), contexts.Keys);
      ghost var keys := contexts.Keys;
      var victim := pool.Emplace(b, seen, Reusable());
      next := next + 1;
      if victim.Owns? {
        Free(victim.bundle);
      }
      contexts := contexts[b := Connection(token, NEW_POLICY, false)];
      assert contexts.Keys == keys - BundleOf(victim) + {b};
    }

    /** The overwritten bundle is destroyed. */
    method Free(b: Bundle)
      requires ContextsAgree() && b in Reusable()
      modifies this`contexts
      ensures ContextsAgree() && contexts == old(contexts) - {b}
    {
      assert b !in epoll by {
        forall c | c in epoll ensures c != b {
          RegisteredIsNotReusable(c);
        }
      }
      contexts := contexts - {b};
    }

    /** The emplace of an accept spares registered bundles, and the contexts of posted tasks. */
    method Admit(b: Bundle, seen: Seen)
      requires ContextsAgree() && PoolAgrees() && TasksAlive() && TasksOpen(0) && b == next
      modifies this`contexts, this`next, pool
      ensures ContextsAgree() && PoolAgrees() && TasksAlive()
      ensures b in contexts && contexts[b].policy == NEW_POLICY
      ensures epoll.Keys <= contexts.Keys && Open() == old(Open()) && next == old(next) + 1
    {
      forall c | c in epoll ensures c !in Reusable() {
        RegisteredIsNotReusable(c);
      }
      Emplace(b, seen);
    }

    /** `BaseServer::accept` with a waiting connection: the new connection is open and registered,
        and no registered bundle is freed. */
    method Accept(seen: Seen, onConnect: seq<UserAct>)
      requires Valid() && TasksOpen(0)
      modifies this`contexts, this`epoll, this`next, this`shutdowns, pool
      ensures Valid()
      ensures old(epoll.Keys) <= contexts.Keys
      ensures Open() == old(Open()) + {old(next)} && old(next) in epoll && next == old(next) + 1
    {
      var b := next;
      Admit(b, seen);
      ConnectNew(b, onConnect);
    }

    /** `handleNewContext` */
    method ConnectNew(b: Bundle, onConnect: seq<UserAct>)
      requires ContextsAgree() && TasksAlive() && b in contexts && contexts[b].policy == NEW_POLICY
      modifies this`contexts, this`epoll, this`shutdowns
      ensures ContextsAgree() && TasksAlive() && contexts.Keys == old(contexts.Keys)
      ensures Open() == old(Open()) + {b} && b in epoll
    {
      Transit(b, Connecting);
      assert b in Open();
      ActAllByUser(onConnect);
      assert Agrees(contexts[b].policy, RegistrationOf(b));
    }

    /** `Handler::handleEvents`: takes the filed events and handles them in order, until something
        that is no `std::exception` leaves the loop and the buffer as it is.  Every handled event
        finds its bundle allocated. */
    method HandleEvents(onEvent: seq<seq<EventAct>>, escape: Escape) returns (escaped: bool)
      requires Valid() && eventBuffer == []
      requires forall e :: e in eventVectors[0] ==> e.bundle in contexts
      modifies this`contexts, this`epoll, this`shutdowns, this`eventVectors, this`eventBuffer, this`dispatched
      ensures Valid() && eventVectors == [[]]
      ensures eventBuffer == if escaped then old(eventVectors)[0] else []
      ensures escaped <==> escape.FromEvent? && escape.at < |old(eventVectors)[0]|
      ensures dispatched == old(dispatched)
                + Dispatches(old(eventVectors)[0])[..Handled(escape, |old(eventVectors)[0]|)]
      ensures contexts.Keys == old(contexts.Keys)
      ensures var events := old(eventVectors)[0];
              Open() == old(Open()) - ClosedBy(events, onEvent, Handled(escape, |events|))
    {
      eventVectors, eventBuffer := eventVectors[token := eventBuffer], eventVectors[token];
      escaped := HandleBuffered(onEvent, escape);
      if !escaped {
        eventBuffer := [];
      }
    }

    /** The first `n` events have been handled, each with its bundle allocated, and closed what their
        handlers close. */
    ghost predicate Progress(events: seq<Event>, onEvent: seq<seq<EventAct>>, n: nat,
                             was: seq<(Bundle, bool)>, open: set<Bundle>)
      reads this`contexts, this`dispatched
    {
      && n <= |events|
      && dispatched == was + Dispatches(events)[..n]
      && Open() == open - ClosedBy(events, onEvent, n)
    }

    method HandleOne(i: nat, onEvent: seq<seq<EventAct>>, ghost was: seq<(Bundle, bool)>, ghost open: set<Bundle>)
      requires ContextsAgree() && TasksAlive() && Progress(eventBuffer, onEvent, i, was, open)
      requires i < |eventBuffer| && eventBuffer[i].bundle in contexts
      modifies this`contexts, this`epoll, this`shutdowns, this`dispatched
      ensures ContextsAgree() && TasksAlive() && contexts.Keys == old(contexts.Keys)
      ensures Progress(eventBuffer, onEvent, i + 1, was, open)
    {
      var b := eventBuffer[i].bundle;
      StepOfHandling(eventBuffer, onEvent, i, was, dispatched, open, Open());
      dispatched := dispatched + [(b, b in contexts)];
      HandleEvent(b, ActsAt(onEvent, i));
    }

    /** The loop over `_eventBuffer`. */
    method HandleBuffered(onEvent: seq<seq<EventAct>>, escape: Escape) returns (escaped: bool)
      requires ContextsAgree() && TasksAlive()
      requires forall i :: 0 <= i < |eventBuffer| ==> eventBuffer[i].bundle in contexts
      modifies this`contexts, this`epoll, this`shutdowns, this`dispatched
      ensures ContextsAgree() && TasksAlive() && contexts.Keys == old(contexts.Keys)
      ensures escaped <==> escape.FromEvent? && escape.at < |eventBuffer|
      ensures Progress(eventBuffer, onEvent, Handled(escape, |eventBuffer|), old(dispatched), old(Open()))
    {
      escaped := false;
      ghost var was, open := dispatched, Open();
      NothingHandled(eventBuffer, was);
      for i := 0 to |eventBuffer|
        invariant ContextsAgree() && TasksAlive() && contexts.Keys == old(contexts.Keys)
        invariant escape.FromEvent? ==> i <= escape.at
        invariant Progress(eventBuffer, onEvent, i, was, open)
      {
        HandleOne(i, onEvent, was, open);
        if escape == FromEvent(i) {
          return true;
        }
      }
    }

    /** `Looper::loop`: user tasks act on the contexts that are allocated, and the posted shutdowns
        that were queued are polled, each with its context allocated.  A poll changes nothing, so the
        order among them does not matter; what user tasks post waits for the next turn. */
    method Loop(tasks: seq<UserAct>)
      requires Valid()
      modifies this`contexts, this`epoll, this`shutdowns, this`polled
      ensures Valid() && contexts.Keys == old(contexts.Keys) && Open() == old(Open())
      ensures TasksOpen(0) && polled == old(polled) + Polls(old(shutdowns))
    {
      var queued := |shutdowns|;
      ActAllByUser(tasks);
      assert shutdowns[..queued] == old(shutdowns);
      PollTasks(queued);
      var rest := shutdowns[queued..];
      assert forall i :: 0 <= i < |rest| ==> rest[i] == shutdowns[queued + i];
      shutdowns := rest;
    }

    method PollTasks(queued: nat)
      requires TasksAlive() && queued <= |shutdowns|
      modifies this`polled
      ensures polled == old(polled) + Polls(shutdowns[..queued])
    {
      for i := 0 to queued
        invariant polled == old(polled) + Polls(shutdowns[..queued])[..i]
      {
        var done := PollTask(shutdowns[i]);
      }
    }

    /** The polled functor of `Context::shutdown`: it is done at once. */
    method PollTask(b: Bundle) returns (done: bool)
      requires b in contexts && contexts[b].policy.net.Rank() >= DISCONNECTING.Rank()
      modifies this`polled
      ensures done && polled == old(polled) + [(b, true)]
    {
      polled := polled + [(b, b in contexts)];
      done := !contexts[b].policy.net.CONNECTED?;
    }

    /** `BaseServer::batch`: exactly the reported events are handled, each with an allocated bundle,
        although accept comes between the poll and the handling. */
    method Batch(turn: Turn) returns (escaped: bool)
      requires Valid() && Idle()
      modifies this, pool
      ensures Valid() && (!escaped ==> Idle())
      ensures var events := Reported(turn.ready, old(epoll));
              && (escaped <==> (turn.incoming && turn.escape.FromConnect?)
                               || (turn.escape.FromEvent? && turn.escape.at < |events|))
              && dispatched == old(dispatched)
                   + (if turn.incoming && turn.escape.FromConnect? then []
                      else Dispatches(events)[..Handled(turn.escape, |events|)])
              && Open() == OpenAfter(old(Open()), old(next), turn, events)
      ensures next == old(next) + (if turn.incoming then 1 else 0)
      ensures !escaped ==> dispatched == old(dispatched) + Dispatches(Reported(turn.ready, old(epoll)))
    {
      Poll(turn.ready);
      ghost var events := eventVectors[0];
      if turn.incoming {
        Accept(turn.seen, turn.onConnect);
        if turn.escape.FromConnect? {
          return true;
        }
      }
      assert eventVectors[0] == events;
      escaped := FinishTurn(turn);
    }

    /** The rest of a turn behind the accept. */
    method FinishTurn(turn: Turn) returns (escaped: bool)
      requires Valid() && eventBuffer == []
      requires forall e :: e in eventVectors[0] ==> e.bundle in contexts
      modifies this`contexts, this`epoll, this`shutdowns, this`eventVectors, this`eventBuffer
      modifies this`dispatched, this`polled
      ensures Valid() && (!escaped ==> Idle())
      ensures var events := old(eventVectors)[0];
              && (escaped <==> turn.escape.FromEvent? && turn.escape.at < |events|)
              && dispatched == old(dispatched) + Dispatches(events)[..Handled(turn.escape, |events|)]
              && Open() == old(Open()) - ClosedBy(events, turn.onEvent, Handled(turn.escape, |events|))
    {
      escaped := HandleEvents(turn.onEvent, turn.escape);
      if !escaped {
        Loop(turn.tasks);
      }
    }

    /** `BaseServer::run` over any number of turns, until an exception leaves it: no handled event
        has a freed bundle, and no task of a shutdown polls a freed context. */
    method Run(turns: seq<Turn>) returns (escaped: bool)
      requires Valid() && Idle()
      modifies this, pool
      ensures Valid() && (!escaped ==> Idle())
      ensures forall i :: 0 <= i < |dispatched| ==> dispatched[i].1
      ensures forall i :: 0 <= i < |polled| ==> polled[i].1
      ensures !escaped ==> next == old(next) + Incoming(turns)
    {
      escaped := false;
      for i := 0 to |turns|
        invariant Valid() && Idle() && !escaped
        invariant next == old(next) + Incoming(turns[..i])
      {
        assert turns[..i + 1][..i] == turns[..i];
        escaped := Batch(turns[i]);
        if escaped {
          return;
        }
      }
      assert turns[..|turns|] == turns;
    }
  }
}
