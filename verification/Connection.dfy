/** One connection: `Context::send` and `Context::shutdown`, and the handlers `handleNewContext`,
    `handleRead`, `handleWrite`, `handleClose` and `handleEvent` that drive it. */
module Connections {
  import opened Buffers
  import opened Interest
  import opened SendLedger
  import HalfClose

  /** Events that epoll reports: POLLHUP, POLLIN, POLLERR or POLLNVAL, POLLPRI or POLLRDHUP,
      POLLOUT. */
  datatype Revents = Revents(hup: bool, input: bool, error: bool, urgent: bool, output: bool)

  /** What a user callback does with its context: sends, shuts down, or throws an exception
      of its own. */
  datatype Call = Send(data: seq<byte>, result: WriteResult) | ShutDownCall | Raise

  /** What waits in the socket when it is read: bytes, or none at the end of the stream; or the read
      fails, for now or for good. */
  datatype Arrival = Bytes(data: seq<byte>) | Again | Broken {
    predicate EndOfStream() {
      Bytes? && data == []
    }

    predicate HasBytes() {
      Bytes? && data != []
    }
  }

  /** What one readv(2) delivers of it, with room for `room` bytes. */
  function Delivered(arrival: Arrival, room: nat): ReadResult {
    match arrival
    case Bytes(data) => Received(if |data| <= room then data else data[..room])
    case _ => ReadError
  }

  function Read(result: ReadResult): seq<byte> {
    if result.Received? then result.data else []
  }

  function Size(arrival: Arrival): nat {
    if arrival.Bytes? then |arrival.data| else 0
  }

  predicate Feasible(calls: seq<Call>) {
    forall i :: 0 <= i < |calls| && calls[i].Send? ==> Taken(calls[i].result) <= |calls[i].data|
  }

  /** Bytes that a callback tries to send. */
  function Volume(calls: seq<Call>): nat {
    if |calls| == 0 then 0
    else (if calls[0].Send? then |calls[0].data| else 0) + Volume(calls[1..])
  }

  /** A callback that throws by itself. */
  predicate Raises(calls: seq<Call>) {
    exists i :: 0 <= i < |calls| && calls[i].Raise?
  }

  function Taken(result: WriteResult): nat {
    if result.Accepted? then result.n else 0
  }

  /** What the calls of a callback come to, from the first to one that throws: the bytes that are
      accepted, and the network state.  Only a connected context accepts bytes. */
  datatype Effect = Effect(sent: seq<byte>, state: NetworkState, thrown: bool)

  function EffectOf(calls: seq<Call>, state: NetworkState): Effect
    decreases |calls|
  {
    if |calls| == 0 then Effect([], state, false)
    else
      match calls[0]
      case Raise => Effect([], state, true)
      case ShutDownCall => EffectOf(calls[1..], if state.CONNECTED? then DISCONNECTING else state)
      case Send(data, result) =>
        if !state.CONNECTED? then EffectOf(calls[1..], state)
        else if result.Failed? then Effect([], state, true)
        else
          var e := EffectOf(calls[1..], state);
          e.(sent := data + e.sent)
  }

  /** Nothing is sent on a closed connection. */
  lemma {:induction false} ClosedEffect(calls: seq<Call>)
    ensures EffectOf(calls, DISCONNECTED) == Effect([], DISCONNECTED, Raises(calls))
    decreases |calls|
  {
    if |calls| > 0 {
      ClosedEffect(calls[1..]);
      assert Raises(calls) <==> calls[0].Raise? || Raises(calls[1..]) by {
        assert forall i :: 1 <= i < |calls| ==> calls[i] == calls[1..][i - 1];
      }
    }
  }

  predicate Open(state: NetworkState) {
    state.CONNECTED? || state.DISCONNECTING?
  }

  /** Hang-up without input closes. */
  function AfterTrouble(revents: Revents, state: NetworkState): NetworkState {
    if revents.hup && !revents.input && Open(state) then DISCONNECTED else state
  }

  predicate TroubleThrows(revents: Revents, state: NetworkState, close: seq<Call>) {
    revents.error || (revents.hup && !revents.input && Open(state) && Raises(close))
  }

  /** A read closes at the end of the stream only; else the message callback decides. */
  function AfterRead(arrival: Arrival, state: NetworkState, message: seq<Call>): NetworkState {
    if arrival.HasBytes() then EffectOf(message, state).state
    else if arrival.EndOfStream() && Open(state) then DISCONNECTED
    else state
  }

  predicate ReadThrows(arrival: Arrival, state: NetworkState, message: seq<Call>, close: seq<Call>) {
    if arrival.HasBytes() then EffectOf(message, state).thrown
    else if arrival.EndOfStream() then Open(state) && Raises(close)
    else arrival.Broken?
  }

  predicate Reads(revents: Revents) {
    revents.input || revents.urgent
  }

  function AfterInput(revents: Revents, arrival: Arrival, state: NetworkState, message: seq<Call>): NetworkState {
    if Reads(revents) then AfterRead(arrival, state, message) else state
  }

  predicate InputThrows(revents: Revents, arrival: Arrival, state: NetworkState,
                        message: seq<Call>, close: seq<Call>) {
    Reads(revents) && ReadThrows(arrival, state, message, close)
  }

  function SentOnInput(revents: Revents, arrival: Arrival, state: NetworkState, message: seq<Call>): seq<byte> {
    if Reads(revents) then SentOnRead(arrival, state, message) else []
  }

  /** What an event changes, as far as users can see it. */
  datatype Books = Books(state: NetworkState, accepted: seq<byte>, flushed: nat, messageCalls: nat)

  /** The input branch of an event, then its output branch: if that is reached, as much is flushed as
      the socket takes of what is buffered then, which is what is `unread` in the end and what was
      flushed. */
  ghost predicate Transferred(revents: Revents, arrival: Arrival, writable: WriteResult,
                              message: seq<Call>, close: seq<Call>,
                              before: Books, after: Books, unread: int, thrown: bool)
  {
    var inputThrows := InputThrows(revents, arrival, before.state, message, close);
    var reached := revents.output && !inputThrows;
    var grown := after.flushed - before.flushed;
    && after.state == AfterInput(revents, arrival, before.state, message)
    && after.accepted == before.accepted + SentOnInput(revents, arrival, before.state, message)
    && after.messageCalls == before.messageCalls + (if Reads(revents) && arrival.HasBytes() then 1 else 0)
    && grown == (if reached && Open(after.state) then Taken(Clipped(writable, unread + grown)) else 0)
    && (thrown <==> inputThrows || (reached && Flushable(after.state, unread + grown) && writable.Failed?))
  }

  /** The input branch of an event. */
  ghost predicate InputDone(revents: Revents, arrival: Arrival, message: seq<Call>, close: seq<Call>,
                         before: Books, after: Books, thrown: bool)
  {
    && after == Books(AfterInput(revents, arrival, before.state, message),
                      before.accepted + SentOnInput(revents, arrival, before.state, message),
                      before.flushed,
                      before.messageCalls + (if Reads(revents) && arrival.HasBytes() then 1 else 0))
    && (thrown <==> InputThrows(revents, arrival, before.state, message, close))
  }

  /** The output branch of an event, with `unread` bytes buffered. */
  ghost predicate OutputDone(writable: WriteResult, before: Books, after: Books, unread: int, thrown: bool) {
    && after.flushed - before.flushed == (if Open(before.state) then Taken(Clipped(writable, unread)) else 0)
    && after == before.(flushed := after.flushed)
    && (thrown <==> Flushable(before.state, unread) && writable.Failed?)
  }

  lemma BothBranches(revents: Revents, arrival: Arrival, writable: WriteResult, message: seq<Call>, close: seq<Call>,
                     before: Books, mid: Books, midUnread: int, after: Books, unread: int, thrown: bool)
    requires InputDone(revents, arrival, message, close, before, mid, false)
    requires revents.output && OutputDone(writable, mid, after, midUnread, thrown)
    requires unread + after.flushed - mid.flushed == midUnread
    ensures Transferred(revents, arrival, writable, message, close, before, after, unread, thrown)
  {
  }

  lemma InputBranchOnly(revents: Revents, arrival: Arrival, writable: WriteResult, message: seq<Call>, close: seq<Call>,
                        before: Books, after: Books, unread: int, thrown: bool)
    requires InputDone(revents, arrival, message, close, before, after, thrown)
    requires thrown || !revents.output
    ensures Transferred(revents, arrival, writable, message, close, before, after, unread, thrown)
  {
  }

  /** A whole event: hang-up without input closes and an error throws, before input and output. */
  ghost predicate Handled(revents: Revents, arrival: Arrival, writable: WriteResult,
                          message: seq<Call>, close: seq<Call>,
                          before: Books, after: Books, unread: int, thrown: bool)
  {
    var between := before.(state := AfterTrouble(revents, before.state));
    if TroubleThrows(revents, before.state, close) then thrown && after == between
    else Transferred(revents, arrival, writable, message, close, between, after, unread, thrown)
  }

  lemma {:induction false} EffectKeepsOpen(calls: seq<Call>, state: NetworkState)
    ensures Open(state) ==> Open(EffectOf(calls, state).state)
    ensures state.DISCONNECTED? ==> EffectOf(calls, state).state.DISCONNECTED?
    decreases |calls|
  {
    if |calls| > 0 {
      var next := if calls[0].ShutDownCall? && state.CONNECTED? then DISCONNECTING else state;
      EffectKeepsOpen(calls[1..], next);
    }
  }

  /** What that means for users.  A connection is closed by a hang-up without input, or by the end of the
      stream when it is read, and by nothing else. */
  lemma EventClosesExactly(revents: Revents, arrival: Arrival, writable: WriteResult,
                           message: seq<Call>, close: seq<Call>,
                           before: Books, after: Books, unread: int, thrown: bool)
    requires Handled(revents, arrival, writable, message, close, before, after, unread, thrown)
    requires before.state.CONNECTED? || before.state.DISCONNECTING?
    ensures after.state.DISCONNECTED? <==>
              || (revents.hup && !revents.input)
              || (!revents.error && (revents.input || revents.urgent) && arrival == Bytes([]))
    ensures !after.state.CONNECTING?
  {
    EffectKeepsOpen(message, before.state);
    EffectKeepsOpen(message, DISCONNECTED);
  }

  /** The message callback runs exactly for bytes that are read before anything was thrown. */
  lemma EventDeliversExactly(revents: Revents, arrival: Arrival, writable: WriteResult,
                             message: seq<Call>, close: seq<Call>,
                             before: Books, after: Books, unread: int, thrown: bool)
    requires Handled(revents, arrival, writable, message, close, before, after, unread, thrown)
    requires !revents.hup || revents.input || !Raises(close)
    ensures after.messageCalls == before.messageCalls
              + (if !revents.error && (revents.input || revents.urgent) && arrival.Bytes? && arrival.data != []
                 then 1 else 0)
  {
  }

  /** An event that is an output event, and neither a hang-up nor an error nor an input, flushes exactly
      as much as the socket takes of what is buffered; a failed write throws. */
  lemma EventFlushesExactly(arrival: Arrival, writable: WriteResult, message: seq<Call>, close: seq<Call>,
                            before: Books, after: Books, unread: int, thrown: bool)
    requires Handled(Revents(false, false, false, false, true), arrival, writable, message, close,
                     before, after, unread, thrown)
    requires (before.state.CONNECTED? || before.state.DISCONNECTING?) && unread >= 0
    ensures var grown := after.flushed - before.flushed;
            match writable
            case Accepted(n) => grown == (if n <= unread + grown then n else unread + grown) && !thrown
            case Interrupted => grown == 0 && !thrown
            case Failed => grown == 0 && (thrown <==> unread > 0)
    ensures after == before.(flushed := after.flushed)
  {
  }

  /** An error always throws, and nothing is read or written. */
  lemma ErrorThrows(revents: Revents, arrival: Arrival, writable: WriteResult,
                    message: seq<Call>, close: seq<Call>,
                    before: Books, after: Books, unread: int, thrown: bool)
    requires Handled(revents, arrival, writable, message, close, before, after, unread, thrown) && revents.error
    ensures thrown && after == before.(state := after.state)
  {
  }

  /** A read takes the first bytes that wait, as many as there is room for. */
  lemma ReadTakesFirst(arrival: Arrival, room: nat)
    ensures arrival.Bytes? ==>
              && Read(Delivered(arrival, room)) <= arrival.data
              && |Read(Delivered(arrival, room))| == if |arrival.data| <= room then |arrival.data| else room
    ensures !arrival.Bytes? ==> Delivered(arrival, room) == ReadError
  {
  }

  /** What the message callback sends. */
  function SentOnRead(arrival: Arrival, state: NetworkState, message: seq<Call>): seq<byte> {
    if arrival.HasBytes() then EffectOf(message, state).sent else []
  }

  /** The stream after a send of which the socket takes `data[..ret]` at once. */
  lemma StreamGrows(wire: seq<byte>, contents: seq<byte>, accepted: seq<byte>, data: seq<byte>, ret: nat)
    requires ret <= |data|
    ensures |wire + data[..ret]| + |contents + data[ret..]| == |wire| + |contents| + |data|
    ensures wire + contents == accepted && (ret > 0 ==> |contents| == 0) ==>
              wire + data[..ret] + (contents + data[ret..]) == accepted + data
    ensures wire + contents == accepted && ret == |data| && (ret > 0 ==> |contents| == 0) ==>
              wire + data[..ret] + contents == accepted + data
  {
    if wire + contents == accepted && (ret > 0 ==> |contents| == 0) {
      assert data[..ret] + data[ret..] == data;
      assert wire + data[..ret] + (contents + data[ret..]) == wire + contents + data;
    }
  }

  /** A send of which the socket takes `data[..ret]` at once keeps the order of an ordered stream. */
  predicate InOrderAfter(wire: seq<byte>, contents: seq<byte>, data: seq<byte>, ret: nat)
    requires ret <= |data|
  {
    wire + data[..ret] + (contents + data[ret..]) == wire + contents + data
  }

  /** The bytes taken and the buffered ones could change places. */
  lemma InOrderIsCommuting(wire: seq<byte>, contents: seq<byte>, data: seq<byte>, ret: nat)
    requires ret <= |data|
    ensures InOrderAfter(wire, contents, data, ret) <==> data[..ret] + contents == contents + data[..ret]
  {
    var head, tail := data[..ret], data[ret..];
    assert data == head + tail;
    var n, m := |wire|, |wire| + |head| + |contents|;
    var left, right := wire + head + (contents + tail), wire + contents + data;
    assert left[n..m] == head + contents;
    assert right[n..m] == contents + head;
    assert left == wire + (head + contents) + tail;
    assert right == wire + (contents + head) + tail;
  }

  predicate OneByte(s: seq<byte>) {
    forall i :: 0 <= i < |s| ==> s[i] == s[0]
  }

  /** If the first byte of a send can overtake the buffer unnoticed, the buffer repeats it. */
  lemma {:induction false} BufferRepeats(contents: seq<byte>, b: byte, i: nat)
    requires [b] + contents == contents + [b] && i < |contents|
    ensures contents[i] == b
  {
    assert ([b] + contents)[i] == (contents + [b])[i];
    if i > 0 {
      BufferRepeats(contents, b, i - 1);
    }
  }

  /** Then so does the byte at which the socket stops. */
  lemma SendRepeats(contents: seq<byte>, data: seq<byte>, ret: nat)
    requires 0 < ret <= |data| && |contents| > 0
    requires data[..ret] + contents == contents + data[..ret]
    ensures data[ret - 1] == contents[|contents| - 1]
  {
    var last := ret + |contents| - 1;
    assert (data[..ret] + contents)[last] == (contents + data[..ret])[last];
  }

  /** `send` writes to the socket without looking at the buffer.  It keeps the order of the stream,
      however much the socket takes, if and only if the buffer is empty, there is nothing to send, or
      nobody can tell the bytes apart. */
  lemma StreamOrderIsKeptExactly(wire: seq<byte>, contents: seq<byte>, data: seq<byte>)
    ensures (forall ret: nat :: ret <= |data| ==> InOrderAfter(wire, contents, data, ret))
       <==> |contents| == 0 || |data| == 0 || OneByte(contents + data)
  {
    if |contents| > 0 && |data| > 0 && forall ret: nat :: ret <= |data| ==> InOrderAfter(wire, contents, data, ret) {
      OrderNeedsOneByte(wire, contents, data);
    }
    if |contents| == 0 || |data| == 0 || OneByte(contents + data) {
      forall ret: nat | ret <= |data| ensures InOrderAfter(wire, contents, data, ret) {
        InOrderIsCommuting(wire, contents, data, ret);
        OneByteCommutes(contents, data, ret);
      }
    }
  }

  lemma OneByteCommutes(contents: seq<byte>, data: seq<byte>, ret: nat)
    requires ret <= |data| && (|contents| == 0 || |data| == 0 || OneByte(contents + data))
    ensures data[..ret] + contents == contents + data[..ret]
  {
    var all := contents + data;
    if |contents| > 0 && |data| > 0 {
      forall i | 0 <= i < |all| ensures all[i] == all[0] {
      }
      assert forall i :: 0 <= i < ret ==> data[i] == all[|contents| + i];
      assert forall i :: 0 <= i < |contents| ==> contents[i] == all[i];
    }
  }

  lemma OrderNeedsOneByte(wire: seq<byte>, contents: seq<byte>, data: seq<byte>)
    requires |contents| > 0 && |data| > 0
    requires forall ret: nat :: ret <= |data| ==> InOrderAfter(wire, contents, data, ret)
    ensures OneByte(contents + data)
  {
    var b := data[0];
    InOrderIsCommuting(wire, contents, data, 1);
    assert data[..1] == [b];
    forall i | 0 <= i < |contents| ensures contents[i] == b {
      BufferRepeats(contents, b, i);
    }
    forall i | 0 <= i < |data| ensures data[i] == b {
      InOrderIsCommuting(wire, contents, data, i + 1);
      SendRepeats(contents, data, i + 1);
    }
  }

  lemma StreamDrains(wire: seq<byte>, sent: seq<byte>, contents: seq<byte>)
    ensures wire + sent + contents == wire + (sent + contents)
  {
  }

  class Context {
    var nState: NetworkState
    var events: Events
    var eState: EventState
    var registration: Registration      // of the socket, in the kernel
    const input: Buffer
    const output: Buffer
    var sendProvider: seq<nat>
    var sendCurrentIndex: nat
    var sendCompletedIndex: nat

    var halfClosed: bool                // the socket is shut down for writing
    var deferred: bool                  // the posted task of a shutdown still polls

    ghost var wire: seq<byte>           // bytes the socket has taken
    ghost var accepted: seq<byte>       // bytes of all sends that were not refused
    ghost var sizes: seq<nat>           // sizes of the buffered sends
    ghost var flushed: nat              // bytes written from the buffer
    ghost var ordered: bool             // no direct write overtook buffered bytes
    ghost var closeCalls: nat           // calls of the close callback
    ghost var history: seq<Transition>  // what the handlers did to network state and interest
    ghost var messageCalls: nat         // calls of the message callback

    ghost function PolicyOf(): Policy
      reads this`nState, this`events, this`eState
    {
      Policy(nState, events, eState)
    }

    ghost function BooksOf(): Books
      reads this`nState, this`accepted, this`flushed, this`messageCalls
    {
      Books(nState, accepted, flushed, messageCalls)
    }

    ghost function SendsOf(): Sends
      reads this`sendProvider, this`sendCurrentIndex, this`sendCompletedIndex
    {
      Sends(sendProvider, sendCurrentIndex, sendCompletedIndex)
    }

    ghost function LifeOf(): HalfClose.Life
      reads this`nState, this`events, this`eState, this`registration, this`halfClosed, this`deferred
    {
      HalfClose.Life(PolicyOf(), registration, halfClosed, deferred)
    }

    /** Write interest is set exactly while bytes are buffered. */
    ghost predicate InterestAgrees()
      reads this`nState, this`events, this`closeCalls, output
    {
      && (nState.CONNECTED? || nState.DISCONNECTING? ==> (events.write <==> output.Unread() > 0))
      && (nState.CONNECTING? ==> output.Unread() == 0)
      && closeCalls == (if nState.DISCONNECTED? then 1 else 0)
    }

    /** The handlers have made these transitions, and no others, since the context was made. */
    ghost predicate LifeAgrees()
      reads this`nState, this`events, this`eState, this`registration, this`halfClosed, this`deferred, this`history
    {
      HalfClose.Reached(LifeOf(), history)
    }

    /** The pending sizes are those of the buffered bytes. */
    ghost predicate LedgerAgrees()
      reads this`sendProvider, this`sendCurrentIndex, this`sendCompletedIndex
      reads this`sizes, this`flushed, output
    {
      && Accounts(SendsOf(), sizes, flushed)
      && output.Unread() == Total(sizes) - flushed
    }

    /** No byte is lost or doubled; if no direct write overtook buffered bytes, none is reordered. */
    ghost predicate StreamAgrees()
      requires output.Valid()
      reads this`wire, this`accepted, this`ordered, output, output.buf
    {
      && |wire| + output.Unread() == |accepted|
      && (ordered ==> StreamInOrder())
    }

    /** What is on the wire and in the buffer are the sends, in order. */
    ghost predicate StreamInOrder()
      requires output.Valid()
      reads this`wire, this`accepted, output, output.buf
    {
      wire + output.Contents() == accepted
    }

    ghost predicate Valid()
      reads this, output, output.buf
    {
      output.Valid() && LifeAgrees() && InterestAgrees() && LedgerAgrees() && StreamAgrees()
    }

    /** The input buffer is a buffer of its own. */
    ghost predicate InputApart()
      reads input, input.buf, output
    {
      input.Valid() && input != output && input.buf != output.buf
    }

    constructor ()
      ensures InputApart() && fresh(input) && fresh(input.buf) && input.Contents() == []
      ensures Valid() && nState.CONNECTING? && fresh(output) && fresh(output.buf) && output.Contents() == []
      ensures wire == accepted == [] && sizes == [] && flushed == 0 && ordered
    {
      nState, events, eState, registration := CONNECTING, EVENT_NONE, NEW, Unregistered;
      input := new Buffer(128);
      output := new Buffer(128);
      sendProvider, sendCurrentIndex, sendCompletedIndex := [], 2, 2;
      wire, accepted, sizes, flushed, ordered := [], [], [], 0, true;
      halfClosed, deferred, history := false, false, [];
      closeCalls, messageCalls := 0, 0;
    }

    /** `Completion::poll` */
    function PollToken(token: nat): bool
      reads this
    {
      sendCompletedIndex > token
    }

    /** The completion of the buffered send with token `2 + i` polls true exactly when the flushed
        bytes reach all bytes buffered through it. */
    lemma CompletionPolls(i: nat)
      requires Valid() && i < |sizes|
      ensures PollToken(2 + i) <==> flushed >= Through(sizes, i + 1)
      ensures PollToken(FAST_COMPLETE)
    {
      CompletionIsExact(SendsOf(), sizes, flushed, i);
    }

    /** Over the whole life of a connection the close callback runs once for the one closing
        transition, and not before it. */
    lemma CloseCallbackRunsOnce()
      requires Valid()
      ensures closeCalls == Closings(history) == if nState.DISCONNECTED? then 1 else 0
    {
      ClosesOnce(NEW_POLICY, Unregistered, history);
    }

    /** `updateEventState` and `Multiplexer::update`: the operation is legal, so epoll_ctl does not
        fail for that reason. */
    method UpdateMultiplexer()
      requires LegalControl(registration, UpdateEventState(PolicyOf()).1)
      modifies this`eState, this`registration
      ensures (PolicyOf(), registration) == Updated(old(PolicyOf()), old(registration))
    {
      var hint;
      if eState.NEW? || eState.DELETED? {
        eState := ADDED;
        hint := CTL_ADD;
      } else if events == EVENT_NONE {
        eState := DELETED;
        hint := CTL_DEL;
      } else {
        hint := CTL_MOD;
      }
      if hint != CTL_NONE {
        registration := Control(registration, hint, events);
      }
    }

    /** `handleNewContext`: what the connect callback throws is caught. */
    method HandleNewContext(connect: seq<Call>)
      requires Valid() && nState.CONNECTING?
      requires Feasible(connect) && output.Unread() + Volume(connect) <= MAX_SIZE
      modifies this, output, output.buf
      ensures Valid() && (output.buf == old(output.buf) || fresh(output.buf))
      ensures nState == EffectOf(connect, CONNECTED).state && Open(nState)
      ensures accepted == old(accepted) + EffectOf(connect, CONNECTED).sent
      ensures old(history) + [Connecting] <= history
    {
      Connect();
      var thrown := RunCallback(connect);
    }

    /** `handleNewContext` before the connect callback. */
    method Connect()
      requires Valid() && nState.CONNECTING?
      modifies this`nState, this`events, this`eState, this`registration, this`history
      ensures Valid() && nState.CONNECTED? && history == old(history) + [Connecting]
    {
      ConnectInterest();
    }

    method ConnectInterest()
      requires LifeAgrees() && InterestAgrees() && nState.CONNECTING?
      modifies this`nState, this`events, this`eState, this`registration, this`history
      ensures LifeAgrees() && InterestAgrees() && nState.CONNECTED? && history == old(history) + [Connecting]
    {
      ghost var next := Begin(Connecting);
      nState := CONNECTED;
      events := events.(read := true);
      UpdateMultiplexer();
      HalfClose.SameReached(next, LifeOf(), history);
    }

    /** Notes the transition that is to be made; `next` is where it leads. */
    ghost method Begin(t: Transition) returns (next: HalfClose.Life)
      requires LifeAgrees() && Makes(PolicyOf(), t)
      modifies this`history
      ensures history == old(history) + [t]
      ensures next == HalfClose.Next(LifeOf(), HalfClose.Make(t)) && HalfClose.Reached(next, history)
      ensures !t.ShuttingDown? ==> LegalControl(registration, UpdateEventState(Asked(PolicyOf(), t)).1)
    {
      next := HalfClose.Next(LifeOf(), HalfClose.Make(t));
      HalfClose.ReachedOn(LifeOf(), history, t, next);
      if !t.ShuttingDown? {
        HalfClose.ReachedIsLegal(LifeOf(), history, t);
      }
      history := history + [t];
    }

    /** `Context::shutdown`: half-closes the socket at once if nothing is left to write, and else
        posts a task that polls for that moment. */
    method Shutdown()
      requires Valid()
      modifies this`nState, this`halfClosed, this`deferred, this`history
      ensures Valid() && history == old(history) + [ShuttingDown]
      ensures LifeOf() == HalfClose.Next(old(LifeOf()), HalfClose.Make(ShuttingDown))
      ensures nState == if old(nState).CONNECTED? then DISCONNECTING else old(nState)
    {
      ghost var next := Begin(ShuttingDown);
      ShutdownSocket();
      HalfClose.SameReached(next, LifeOf(), history);
    }

    method ShutdownSocket()
      modifies this`nState, this`halfClosed, this`deferred
      ensures LifeOf() == HalfClose.ShutSocket(old(LifeOf())).(policy := ShutDown(old(PolicyOf())))
    {
      if nState.CONNECTED? {
        nState := DISCONNECTING;
        if !events.write {
          halfClosed := true;
          return;
        }
        deferred := true;
      }
    }

    /** One poll of that task. */
    method PollShutdown() returns (done: bool)
      requires Valid() && deferred
      modifies this`halfClosed, this`deferred
      ensures Valid() && done && !deferred && halfClosed == old(halfClosed)
      ensures LifeOf() == HalfClose.Next(old(LifeOf()), HalfClose.PollShutdown)
    {
      HalfClose.PollGivesUp(LifeOf());
      done := PollSocket();
    }

    /** The polled functor. */
    method PollSocket() returns (done: bool)
      modifies this`halfClosed, this`deferred
      ensures LifeOf() == HalfClose.Polled(old(LifeOf()).(deferred := true))
      ensures done <==> !deferred
    {
      var stateValid := nState.CONNECTED?;
      if stateValid && !events.write {
        halfClosed := true;
        done := true;
      } else {
        done := !stateValid;
      }
      deferred := !done;
    }

    /** A send keeps an ordered stream in order, however much the socket takes, if and only if write
        interest is off, or there is nothing to send, or all bytes are the same. */
    lemma SendKeepsOrderExactly(data: seq<byte>)
      requires Valid() && nState.CONNECTED?
      ensures (forall ret: nat :: ret <= |data| ==> InOrderAfter(wire, output.Contents(), data, ret))
         <==> !events.write || |data| == 0 || OneByte(output.Contents() + data)
    {
      StreamOrderIsKeptExactly(wire, output.Contents(), data);
    }

    /** `Context::send`.  The token of a buffered send is 2 plus the number of earlier buffered
        sends. */
    method SendBytes(data: seq<byte>, result: WriteResult) returns (thrown: bool, token: nat)
      requires Valid() && !nState.CONNECTING?
      requires Taken(result) <= |data|
      requires output.Unread() + |data| <= MAX_SIZE
      modifies this`events, this`eState, this`registration, this`sendProvider, this`sendCurrentIndex
      modifies this`wire, this`accepted, this`sizes, this`ordered, this`history, output, output.buf
      ensures old(history) <= history
      ensures Valid() && (output.buf == old(output.buf) || fresh(output.buf))
      ensures thrown <==> nState.CONNECTED? && result.Failed?
      ensures !nState.CONNECTED? ==> token == INVALID
      ensures output.Contents() == old(output.Contents())
                + (if thrown || !nState.CONNECTED? then [] else data[Taken(result)..])
      ensures output.Unread() <= old(output.Unread()) + |data|
      ensures thrown || !nState.CONNECTED? ==>
                wire == old(wire) && accepted == old(accepted) && sizes == old(sizes) && ordered == old(ordered)
      ensures !thrown && nState.CONNECTED? ==>
                && wire == old(wire) + data[..Taken(result)] && accepted == old(accepted) + data
                && (old(StreamInOrder()) ==>
                      (StreamInOrder() <==> InOrderAfter(old(wire), old(output.Contents()), data, Taken(result))))
                && ordered == (old(ordered) && (Taken(result) > 0 ==> old(output.Unread()) == 0))
      ensures !thrown && nState.CONNECTED? && Taken(result) == |data| ==>
                token == FAST_COMPLETE && sizes == old(sizes)
      ensures !thrown && nState.CONNECTED? && Taken(result) < |data| ==>
                token == 2 + |old(sizes)| && sizes == old(sizes) + [|data| - Taken(result)]
    {
      thrown, token := false, INVALID;
      if nState.DISCONNECTING? || nState.DISCONNECTED? {
        return;
      }
      if result.Failed? {
        thrown := true;
        return;
      }
      token := SendRest(data, Taken(result));
    }

    /** `send` after the socket has taken `ret` bytes. */
    method SendRest(data: seq<byte>, ret: nat) returns (token: nat)
      requires Valid() && nState.CONNECTED?
      requires ret <= |data| && output.Unread() + |data| <= MAX_SIZE
      modifies this`events, this`eState, this`registration, this`sendProvider, this`sendCurrentIndex
      modifies this`wire, this`accepted, this`sizes, this`ordered, this`history, output, output.buf
      ensures old(history) <= history
      ensures Valid() && (output.buf == old(output.buf) || fresh(output.buf))
      ensures output.Contents() == old(output.Contents()) + data[ret..]
      ensures output.Unread() == old(output.Unread()) + |data| - ret
      ensures wire == old(wire) + data[..ret] && accepted == old(accepted) + data
      ensures ordered == (old(ordered) && (ret > 0 ==> old(output.Unread()) == 0))
      ensures if ret == |data| then token == FAST_COMPLETE && sizes == old(sizes)
              else token == 2 + |old(sizes)| && sizes == old(sizes) + [|data| - ret]
    {
      ghost var before := output.Contents();
      if ret == |data| {
        RecordSend(data, ret, before);
        token := FAST_COMPLETE;
        return;
      }
      token := BufferRest(data[ret..]);
      RecordSend(data, ret, before);
    }

    /** The ledger of a send, of which `data[ret..]` has been buffered behind `before`. */
    ghost method RecordSend(data: seq<byte>, ret: nat, before: seq<byte>)
      requires output.Valid() && ret <= |data|
      requires output.Contents() == before + data[ret..]
      requires |wire| + |before| == |accepted| && (ordered ==> wire + before == accepted)
      modifies this`wire, this`accepted, this`ordered
      ensures StreamAgrees()
      ensures wire == old(wire) + data[..ret] && accepted == old(accepted) + data
      ensures ordered == (old(ordered) && (ret > 0 ==> |before| == 0))
    {
      StreamGrows(wire, before, accepted, data, ret);
      ordered := ordered && (ret > 0 ==> |before| == 0);
      wire := wire + data[..ret];
      accepted := accepted + data;
    }

    method Enqueue(n: nat) returns (token: nat)
      requires Accounts(SendsOf(), sizes, flushed) && n > 0
      requires output.Unread() == Total(sizes) - flushed + n
      modifies this`sendProvider, this`sendCurrentIndex, this`sizes
      ensures LedgerAgrees()
      ensures token == 2 + |old(sizes)| && sizes == old(sizes) + [n]
    {
      BufferedAccounts(SendsOf(), sizes, flushed, n);
      ThroughAppend(sizes, n, |sizes|);
      sendProvider := sendProvider + [n];
      sizes := sizes + [n];
      token := sendCurrentIndex;
      sendCurrentIndex := sendCurrentIndex + 1;
    }

    /** The second half of `send`: buffers what the socket has not taken, and turns write interest
        on. */
    method BufferRest(rest: seq<byte>) returns (token: nat)
      requires output.Valid() && LifeAgrees() && InterestAgrees() && LedgerAgrees()
      requires nState.CONNECTED? && |rest| > 0 && output.Unread() + |rest| <= MAX_SIZE
      modifies this`events, this`eState, this`registration, this`history, output, output.buf
      modifies this`sendProvider, this`sendCurrentIndex, this`sizes
      ensures output.Valid() && LifeAgrees() && InterestAgrees() && LedgerAgrees()
      ensures old(history) <= history
      ensures output.buf == old(output.buf) || fresh(output.buf)
      ensures output.Contents() == old(output.Contents()) + rest
      ensures output.Unread() == old(output.Unread()) + |rest|
      ensures token == 2 + |old(sizes)| && sizes == old(sizes) + [|rest|]
    {
      output.Append(rest);
      token := Enqueue(|rest|);
      if !events.write {
        EnableWriteInterest();
      }
    }

    method EnableWriteInterest()
      requires LifeAgrees() && nState.CONNECTED? && !events.write
      requires closeCalls == 0 && output.Unread() > 0
      modifies this`events, this`eState, this`registration, this`history
      ensures LifeAgrees() && InterestAgrees() && history == old(history) + [WriteOn]
    {
      ghost var next := Begin(WriteOn);
      events := events.(write := true);
      UpdateMultiplexer();
      HalfClose.SameReached(next, LifeOf(), history);
    }

    /** `handleWriteComplete` */
    method HandleWriteComplete(n: nat)
      modifies this`sendProvider, this`sendCompletedIndex
      ensures SendsOf() == Flushed(old(SendsOf()), n)
    {
      var left := n;
      while left > 0 && |sendProvider| > 0
        invariant sendCurrentIndex == old(sendCurrentIndex)
        invariant Flushed(SendsOf(), left) == Flushed(old(SendsOf()), n)
        decreases |sendProvider|
      {
        if sendProvider[0] > left {
          sendProvider := [sendProvider[0] - left] + sendProvider[1..];
          return;
        }
        left := left - sendProvider[0];
        sendProvider := sendProvider[1..];
        sendCompletedIndex := sendCompletedIndex + 1;
      }
    }

    method CompleteWrite(n: nat)
      requires Accounts(SendsOf(), sizes, flushed)
      requires 0 <= output.Unread() == Total(sizes) - flushed - n
      modifies this`sendProvider, this`sendCompletedIndex, this`flushed
      ensures LedgerAgrees() && flushed == old(flushed) + n
    {
      ghost var before, total := SendsOf(), flushed + n;
      FlushedAccounts(before, sizes, flushed, n, total);
      HandleWriteComplete(n);
      flushed := total;
      SameAccounts(Flushed(before, n), SendsOf(), sizes, total);
    }

    /** Writes to the socket and settles the pending sends with what it took. */
    method FlushOutput(result: WriteResult) returns (thrown: bool, n: nat)
      requires output.Valid() && LedgerAgrees() && StreamAgrees()
      requires Taken(result) <= output.Unread()
      modifies this`sendProvider, this`sendCompletedIndex, this`wire, this`flushed, output, output.buf
      ensures output.Valid() && LedgerAgrees() && StreamAgrees()
      ensures output.buf == old(output.buf) && output.Unread() == old(output.Unread()) - n
      ensures thrown == result.Failed? && n == Taken(result) && flushed == old(flushed) + n
      ensures wire + output.Contents() == old(wire) + old(output.Contents()) && |wire| == |old(wire)| + n
    {
      ghost var sent;
      thrown, n, sent := output.WriteTo(result);
      if thrown {
        return;
      }
      StreamDrains(wire, sent, output.Contents());
      wire := wire + sent;
      CompleteWrite(n);
    }

    /** `handleWrite` */
    method HandleWrite(result: WriteResult) returns (thrown: bool)
      requires Valid()
      requires Taken(result) <= output.Unread()
      modifies this`events, this`eState, this`registration, this`sendProvider, this`sendCompletedIndex
      modifies this`wire, this`flushed, this`history, output, output.buf
      ensures Valid() && output.buf == old(output.buf) && old(history) <= history
      ensures thrown <==> old(events).write && result.Failed?
      ensures flushed == old(flushed) + (if old(events).write then Taken(result) else 0)
      ensures wire + output.Contents() == old(wire) + old(output.Contents())
      ensures |wire| == |old(wire)| + flushed - old(flushed)
    {
      thrown := false;
      if !events.write {
        return;
      }
      var n;
      thrown, n := FlushOutput(result);
      if !thrown && n > 0 && output.Unread() == 0 {
        DisableWriteInterest();
      }
    }

    method DisableWriteInterest()
      requires LifeAgrees() && PolicyOf().IsOpen() && events.write
      requires closeCalls == 0 && output.Unread() == 0
      modifies this`events, this`eState, this`registration, this`history
      ensures LifeAgrees() && InterestAgrees() && history == old(history) + [WriteOff]
    {
      ghost var next := Begin(WriteOff);
      events := events.(write := false);
      UpdateMultiplexer();
      HalfClose.SameReached(next, LifeOf(), history);
    }

    /** `handleClose` before the close callback. */
    method HandleClose()
      requires Valid()
      modifies this`nState, this`events, this`eState, this`registration, this`closeCalls
      modifies this`halfClosed, this`deferred, this`history
      ensures Valid() && old(history) <= history
      ensures nState == if old(PolicyOf().IsOpen()) then DISCONNECTED else old(nState)
      ensures old(PolicyOf().IsOpen()) ==>
                registration == Unregistered && LifeOf() == HalfClose.Next(old(LifeOf()), HalfClose.Make(Closing))
    {
      if nState.CONNECTED? || nState.DISCONNECTING? {
        CloseInterest();
      }
    }

    method CloseInterest()
      requires LifeAgrees() && InterestAgrees() && PolicyOf().IsOpen()
      modifies this`nState, this`events, this`eState, this`registration, this`closeCalls
      modifies this`halfClosed, this`deferred, this`history
      ensures history == old(history) + [Closing]
      ensures LifeAgrees() && InterestAgrees() && nState == DISCONNECTED && registration == Unregistered
      ensures LifeOf() == HalfClose.Next(old(LifeOf()), HalfClose.Make(Closing))
    {
      ghost var next := Begin(Closing);
      ghost var asked := StartClose(PolicyOf());
      ShutdownSocket();
      events := events.(read := false);
      events := events.(write := false);
      assert PolicyOf() == asked;
      UpdateMultiplexer();
      nState := DISCONNECTED;
      closeCalls := closeCalls + 1;
      HalfClose.SameReached(next, LifeOf(), history);
    }

    /** One call of a user callback. */
    method RunCall(call: Call) returns (thrown: bool)
      requires Valid() && !nState.CONNECTING?
      requires Feasible([call]) && output.Unread() + Volume([call]) <= MAX_SIZE
      modifies this`nState, this`events, this`eState, this`registration, this`halfClosed, this`deferred
      modifies this`sendProvider, this`sendCurrentIndex
      modifies this`wire, this`accepted, this`sizes, this`ordered, this`history
      modifies output, output.buf
      ensures old(history) <= history
      ensures Valid() && (output.buf == old(output.buf) || fresh(output.buf))
      ensures output.Unread() <= old(output.Unread()) + (if call.Send? then |call.data| else 0)
      ensures thrown <==> call.Raise? || (old(nState).CONNECTED? && call.Send? && call.result.Failed?)
      ensures nState == if call.ShutDownCall? && old(nState).CONNECTED? then DISCONNECTING else old(nState)
      ensures accepted == old(accepted) + (if call.Send? && old(nState).CONNECTED? && !thrown then call.data else [])
    {
      thrown := false;
      match call
      case Send(data, result) =>
        assert [call][0] == call;
        var token;
        thrown, token := SendBytes(data, result);
      case ShutDownCall =>
        Shutdown();
      case Raise =>
        thrown := true;
    }

    /** A user callback: any sends and shutdowns, until one of them throws. */
    method RunCallback(calls: seq<Call>) returns (thrown: bool)
      requires Valid() && !nState.CONNECTING?
      requires Feasible(calls) && output.Unread() + Volume(calls) <= MAX_SIZE
      modifies this`nState, this`events, this`eState, this`registration, this`halfClosed, this`deferred
      modifies this`sendProvider, this`sendCurrentIndex
      modifies this`wire, this`accepted, this`sizes, this`ordered, this`history
      modifies output, output.buf
      ensures old(history) <= history
      ensures Valid() && (output.buf == old(output.buf) || fresh(output.buf))
      ensures var e := EffectOf(calls, old(nState));
              nState == e.state && thrown == e.thrown && accepted == old(accepted) + e.sent
      ensures output.Unread() <= old(output.Unread()) + Volume(calls)
      ensures old(nState).Rank() <= nState.Rank() && (nState.DISCONNECTED? <==> old(nState).DISCONNECTED?)
      decreases |calls|
    {
      thrown := false;
      if |calls| > 0 {
        assert Volume([calls[0]]) == if calls[0].Send? then |calls[0].data| else 0;
        thrown := RunCall(calls[0]);
        if !thrown {
          thrown := RunCallback(calls[1..]);
        }
      }
    }

    /** `handleRead`: new bytes go to the end of the input and the message callback runs, the end of
        the stream closes. */
    method HandleRead(arrival: Arrival, message: seq<Call>, close: seq<Call>) returns (thrown: bool)
      requires Valid() && InputApart() && !nState.CONNECTING?
      requires Feasible(message) && output.Unread() + Volume(message) <= MAX_SIZE
      requires Feasible(close) && output.Unread() + Volume(close) <= MAX_SIZE
      requires input.Unread() + Size(arrival) <= MAX_SIZE
      modifies this, output, output.buf, input, input.buf
      ensures Valid() && (output.buf == old(output.buf) || fresh(output.buf))
      ensures InputApart() && (input.buf == old(input.buf) || fresh(input.buf))
      ensures old(history) <= history && old(nState).Rank() <= nState.Rank()
      ensures nState == AfterRead(arrival, old(nState), message)
      ensures thrown <==> ReadThrows(arrival, old(nState), message, close)
      ensures accepted == old(accepted) + SentOnRead(arrival, old(nState), message)
      ensures messageCalls == old(messageCalls) + (if arrival.HasBytes() then 1 else 0)
      ensures input.appended == old(input.appended) + Read(Delivered(arrival, old(input.Unwrite()) + LOCAL_SIZE))
      ensures flushed == old(flushed)
    {
      var n := input.ReadFrom(Delivered(arrival, input.Unwrite() + LOCAL_SIZE));
      thrown := ActOnRead(n, arrival.Broken?, message, close);
    }

    /** `handleRead` after the read. */
    method ActOnRead(n: int, broken: bool, message: seq<Call>, close: seq<Call>) returns (thrown: bool)
      requires Valid() && !nState.CONNECTING?
      requires Feasible(message) && output.Unread() + Volume(message) <= MAX_SIZE
      requires Feasible(close) && output.Unread() + Volume(close) <= MAX_SIZE
      modifies this, output, output.buf
      ensures Valid() && (output.buf == old(output.buf) || fresh(output.buf))
      ensures old(history) <= history && old(nState).Rank() <= nState.Rank()
      ensures n > 0 ==>
                var e := EffectOf(message, old(nState));
                nState == e.state && thrown == e.thrown && accepted == old(accepted) + e.sent
      ensures n == 0 ==>
                && nState.DISCONNECTED? && (thrown <==> Open(old(nState)) && Raises(close))
                && accepted == old(accepted)
      ensures n < 0 ==> nState == old(nState) && thrown == broken && accepted == old(accepted)
      ensures messageCalls == old(messageCalls) + (if n > 0 then 1 else 0)
      ensures flushed == old(flushed)
    {
      thrown := false;
      if n > 0 {
        messageCalls := messageCalls + 1;
        thrown := RunCallback(message);
      } else if n == 0 {
        thrown := CloseAndNotify(close);
      } else if broken {
        thrown := true;
      }
    }

    method CloseNow()
      requires Valid() && PolicyOf().IsOpen()
      modifies this`nState, this`events, this`eState, this`registration, this`closeCalls
      modifies this`halfClosed, this`deferred, this`history
      ensures Valid() && old(history) <= history && nState.DISCONNECTED?
    {
      HandleClose();
    }

    method RunCloseCallback(close: seq<Call>) returns (thrown: bool)
      requires Valid() && nState.DISCONNECTED?
      requires Feasible(close) && output.Unread() + Volume(close) <= MAX_SIZE
      modifies this`nState, this`events, this`eState, this`registration, this`halfClosed, this`deferred
      modifies this`sendProvider, this`sendCurrentIndex
      modifies this`wire, this`accepted, this`sizes, this`ordered, this`history
      modifies output, output.buf
      ensures old(history) <= history
      ensures Valid() && (output.buf == old(output.buf) || fresh(output.buf))
      ensures BooksOf() == old(BooksOf()) && (thrown <==> Raises(close))
      ensures output.Unread() <= old(output.Unread()) + Volume(close)
    {
      ClosedEffect(close);
      thrown := RunCallback(close);
    }

    /** `handleClose` with its callback. */
    method CloseAndNotify(close: seq<Call>) returns (thrown: bool)
      requires Valid() && !nState.CONNECTING?
      requires Feasible(close) && output.Unread() + Volume(close) <= MAX_SIZE
      modifies this, output, output.buf
      ensures old(history) <= history
      ensures Valid() && (output.buf == old(output.buf) || fresh(output.buf))
      ensures BooksOf() == old(BooksOf()).(state := DISCONNECTED)
      ensures thrown <==> Open(old(nState)) && Raises(close)
      ensures output.Unread() <= old(output.Unread()) + Volume(close)
    {
      thrown := false;
      if nState.CONNECTED? || nState.DISCONNECTING? {
        CloseNow();
        thrown := RunCloseCallback(close);
      }
    }

    /** `HandlerBase::handleEvent`: hang-up without input, errors, input, output, in this order; the
        first that throws ends it.  `writable` is how much the socket can take. */
    method HandleEvent(revents: Revents, arrival: Arrival, writable: WriteResult,
                       message: seq<Call>, close: seq<Call>) returns (thrown: bool)
      requires Valid() && InputApart() && !nState.CONNECTING?
      requires Feasible(message) && Feasible(close)
      requires output.Unread() + Volume(message) + 2 * Volume(close) <= MAX_SIZE
      requires input.Unread() + Size(arrival) <= MAX_SIZE
      modifies this, output, output.buf, input, input.buf
      ensures old(history) <= history && old(nState).Rank() <= nState.Rank()
      ensures Moves(old(PolicyOf()), old(registration), history[|old(history)|..], PolicyOf(), registration)
      ensures Valid() && (output.buf == old(output.buf) || fresh(output.buf))
      ensures InputApart() && (input.buf == old(input.buf) || fresh(input.buf))
      ensures Handled(revents, arrival, writable, message, close, old(BooksOf()), BooksOf(), output.Unread(), thrown)
      ensures old(input.appended) <= input.appended
      // an event that is output only writes the first of the buffered bytes
      ensures OnlyOutput(revents) ==>
                && Writes(old(wire), old(output.Contents()), wire, output.Contents(),
                          if Open(old(nState)) then Taken(Clipped(writable, old(output.Unread()))) else 0)
                && (thrown <==> Flushable(old(nState), old(output.Unread())) && writable.Failed?)
    {
      thrown := HandleBits(revents, arrival, writable, message, close);
      MovesBetween(NEW_POLICY, Unregistered, old(history), old(PolicyOf()), old(registration),
                   history, PolicyOf(), registration);
      if OnlyOutput(revents) {
        OnlyOutputFlushes(revents, arrival, writable, message, close, old(BooksOf()), BooksOf(),
                          output.Unread(), thrown);
      }
    }

    method HandleBits(revents: Revents, arrival: Arrival, writable: WriteResult,
                      message: seq<Call>, close: seq<Call>) returns (thrown: bool)
      requires Valid() && InputApart() && !nState.CONNECTING?
      requires Feasible(message) && Feasible(close)
      requires output.Unread() + Volume(message) + 2 * Volume(close) <= MAX_SIZE
      requires input.Unread() + Size(arrival) <= MAX_SIZE
      modifies this, output, output.buf, input, input.buf
      ensures old(history) <= history && old(nState).Rank() <= nState.Rank()
      ensures Valid() && (output.buf == old(output.buf) || fresh(output.buf))
      ensures InputApart() && (input.buf == old(input.buf) || fresh(input.buf))
      ensures Handled(revents, arrival, writable, message, close, old(BooksOf()), BooksOf(), output.Unread(), thrown)
      ensures old(input.appended) <= input.appended
      ensures OnlyOutput(revents) ==>
                && Writes(old(wire), old(output.Contents()), wire, output.Contents(), flushed - old(flushed))
                && output.Unread() + flushed - old(flushed) == old(output.Unread())
    {
      thrown := HandleTrouble(revents, close);
      if !thrown {
        thrown := HandleTransfer(revents, arrival, writable, message, close);
      }
    }

    /** Hang-up without input, and errors. */
    method HandleTrouble(revents: Revents, close: seq<Call>) returns (thrown: bool)
      requires Valid() && !nState.CONNECTING?
      requires Feasible(close) && output.Unread() + Volume(close) <= MAX_SIZE
      modifies this, output, output.buf
      ensures Valid() && (output.buf == old(output.buf) || fresh(output.buf))
      ensures old(history) <= history && old(nState).Rank() <= nState.Rank()
      ensures BooksOf() == old(BooksOf()).(state := AfterTrouble(revents, old(nState)))
      ensures thrown <==> TroubleThrows(revents, old(nState), close)
      ensures output.Unread() <= old(output.Unread()) + Volume(close)
      ensures !revents.hup ==> wire == old(wire) && output.Contents() == old(output.Contents())
    {
      thrown := false;
      if revents.hup && !revents.input {
        thrown := CloseAndNotify(close);
      }
      if !thrown && revents.error {
        thrown := true;
      }
    }

    /** Input, then output: what the socket takes of the bytes that are buffered when the output is
        reached has gone to the wire. */
    method HandleTransfer(revents: Revents, arrival: Arrival, writable: WriteResult,
                          message: seq<Call>, close: seq<Call>) returns (thrown: bool)
      requires Valid() && InputApart() && !nState.CONNECTING?
      requires Feasible(message) && output.Unread() + Volume(message) <= MAX_SIZE
      requires Feasible(close) && output.Unread() + Volume(close) <= MAX_SIZE
      requires input.Unread() + Size(arrival) <= MAX_SIZE
      modifies this, output, output.buf, input, input.buf
      ensures Valid() && (output.buf == old(output.buf) || fresh(output.buf))
      ensures InputApart() && (input.buf == old(input.buf) || fresh(input.buf))
      ensures old(history) <= history && old(input.appended) <= input.appended
      ensures old(nState).Rank() <= nState.Rank()
      ensures Transferred(revents, arrival, writable, message, close, old(BooksOf()), BooksOf(),
                          output.Unread(), thrown)
      ensures !Reads(revents) ==>
                Writes(old(wire), old(output.Contents()), wire, output.Contents(), flushed - old(flushed))
    {
      thrown := HandleInput(revents, arrival, message, close);
      ghost var mid, buffered := BooksOf(), output.Unread();
      if thrown || !revents.output {
        InputBranchOnly(revents, arrival, writable, message, close, old(BooksOf()), mid, buffered, thrown);
        NothingWritten(wire, output.Contents());
        return;
      }
      thrown := OutputBehindInput(revents, arrival, writable, message, close, old(BooksOf()));
    }

    method OutputBehindInput(revents: Revents, arrival: Arrival, writable: WriteResult,
                             ghost message: seq<Call>, ghost close: seq<Call>, ghost before: Books)
      returns (thrown: bool)
      requires Valid() && !nState.CONNECTING? && revents.output
      requires InputDone(revents, arrival, message, close, before, BooksOf(), false)
      modifies this`events, this`eState, this`registration, this`sendProvider, this`sendCompletedIndex
      modifies this`wire, this`flushed, this`history, output, output.buf
      ensures Valid() && output.buf == old(output.buf) && old(history) <= history
      ensures Transferred(revents, arrival, writable, message, close, before, BooksOf(), output.Unread(), thrown)
      ensures Writes(old(wire), old(output.Contents()), wire, output.Contents(), flushed - old(flushed))
    {
      ghost var mid, buffered := BooksOf(), output.Unread();
      thrown := HandleOutput(writable);
      BothBranches(revents, arrival, writable, message, close, before, mid, buffered,
                   BooksOf(), output.Unread(), thrown);
    }

    method HandleInput(revents: Revents, arrival: Arrival, message: seq<Call>, close: seq<Call>)
      returns (thrown: bool)
      requires Valid() && InputApart() && !nState.CONNECTING?
      requires Feasible(message) && output.Unread() + Volume(message) <= MAX_SIZE
      requires Feasible(close) && output.Unread() + Volume(close) <= MAX_SIZE
      requires input.Unread() + Size(arrival) <= MAX_SIZE
      modifies this, output, output.buf, input, input.buf
      ensures Valid() && (output.buf == old(output.buf) || fresh(output.buf))
      ensures InputApart() && (input.buf == old(input.buf) || fresh(input.buf))
      ensures old(history) <= history && old(input.appended) <= input.appended
      ensures old(nState).Rank() <= nState.Rank()
      ensures InputDone(revents, arrival, message, close, old(BooksOf()), BooksOf(), thrown)
      ensures !Reads(revents) ==> wire == old(wire) && output.Contents() == old(output.Contents())
    {
      thrown := false;
      if revents.input || revents.urgent {
        thrown := HandleRead(arrival, message, close);
      }
    }

    /** `handleWrite` on a socket that can take so much: the first of the buffered bytes go to the wire,
        as many as the socket takes. */
    method HandleOutput(writable: WriteResult) returns (thrown: bool)
      requires Valid() && !nState.CONNECTING?
      modifies this`events, this`eState, this`registration, this`sendProvider, this`sendCompletedIndex
      modifies this`wire, this`flushed, this`history, output, output.buf
      ensures Valid() && output.buf == old(output.buf) && old(history) <= history
      ensures OutputDone(writable, old(BooksOf()), BooksOf(), old(output.Unread()), thrown)
      ensures Writes(old(wire), old(output.Contents()), wire, output.Contents(), flushed - old(flushed))
      ensures output.Unread() + flushed - old(flushed) == old(output.Unread())
    {
      thrown := HandleWrite(Clipped(writable, output.Unread()));
      FirstBytes(old(wire), old(output.Contents()), wire, output.Contents());
    }
  }

  predicate OnlyOutput(revents: Revents) {
    revents.output && !revents.hup && !revents.error && !Reads(revents)
  }

  lemma OnlyOutputFlushes(revents: Revents, arrival: Arrival, writable: WriteResult,
                          message: seq<Call>, close: seq<Call>,
                          before: Books, after: Books, unread: int, thrown: bool)
    requires Handled(revents, arrival, writable, message, close, before, after, unread, thrown)
    requires OnlyOutput(revents)
    ensures var grown := after.flushed - before.flushed;
            && grown == (if Open(before.state) then Taken(Clipped(writable, unread + grown)) else 0)
            && (thrown <==> Flushable(before.state, unread + grown) && writable.Failed?)
  {
  }

  predicate Flushable(state: NetworkState, unread: int) {
    Open(state) && unread > 0
  }

  /** The first `n` bytes of the buffer have gone to the wire. */
  ghost predicate Writes(wire: seq<byte>, contents: seq<byte>, newWire: seq<byte>, newContents: seq<byte>, n: nat) {
    n <= |contents| && newWire == wire + contents[..n] && newContents == contents[n..]
  }

  lemma NothingWritten(wire: seq<byte>, contents: seq<byte>)
    ensures Writes(wire, contents, wire, contents, 0)
  {
  }

  lemma FirstBytes(wire: seq<byte>, contents: seq<byte>, newWire: seq<byte>, newContents: seq<byte>)
    requires newWire + newContents == wire + contents && |newWire| >= |wire|
    ensures Writes(wire, contents, newWire, newContents, |newWire| - |wire|)
  {
    var n := |newWire| - |wire|;
    assert newWire == (wire + contents)[..|newWire|];
    assert newContents == (wire + contents)[|newWire|..];
  }

  /** A new connection, without a connect callback. */
  method NewConnection() returns (c: Context)
    ensures fresh(c) && fresh(c.output) && fresh(c.output.buf)
    ensures c.Valid() && c.nState.CONNECTED? && c.ordered
    ensures c.wire == [] && c.output.Contents() == [] && c.accepted == []
  {
    c := new Context();
    c.Connect();
  }

  /** A new connection whose socket takes nothing of its first byte. */
  method BufferOne() returns (c: Context)
    ensures fresh(c) && fresh(c.output) && fresh(c.output.buf)
    ensures c.Valid() && c.nState.CONNECTED? && c.ordered
    ensures c.wire == [] && c.output.Contents() == [1] && c.accepted == [1]
  {
    c := NewConnection();
    var thrown, token := c.SendBytes([1], Interrupted);
  }

  /** Its next send, of which the socket takes the byte 2, puts that byte on the wire before the byte
      1 that was sent first. */
  method DirectWriteOvertakes() returns (c: Context)
    ensures c.Valid() && c.nState.CONNECTED?
    ensures c.accepted == [1, 2] && c.wire == [2] && c.output.Contents() == [1]
    ensures !c.StreamInOrder()
  {
    c := BufferOne();
    var thrown, token := c.SendBytes([2], Accepted(1));
    assert (c.wire + c.output.Contents())[0] == 2;
  }

  /** A shutdown with a byte still buffered: its task has given up, and the socket is not half-closed. */
  method DeferredShutdownGivesUp() returns (c: Context)
    ensures c.Valid() && c.nState.DISCONNECTING? && c.events.write && c.output.Contents() == [1]
    ensures !c.halfClosed && !c.deferred
  {
    c := BufferOne();
    c.Shutdown();
    var done := c.PollShutdown();
  }

  function Clipped(result: WriteResult, unread: int): WriteResult {
    if result.Accepted? && unread < result.n then Accepted(if unread < 0 then 0 else unread) else result
  }
}
