/** Promises and futures: the control block shared by a `Promise` and its `Future`, and linear chains
    of `then`, `poll`, `poll(count)` and `cancelIf` that run on a looper. */
module Futures {
  import Loopers

  /** Values are immutable here; chains of different value types are chains of one. */
  type Value = int

  /** One stage of a chain.  A polled functor gives `answers(k)` when it is asked for the `k`-th time;
      it may refuse for ever. */
  datatype Stage =
    | Then(f: Value -> Value)
    | Poll(answers: nat -> bool)
    | PollCount(count: nat, answers: nat -> bool)
    | CancelIf(p: Value -> bool)
  {
    /** The condition of the stage's loop after `asked` rounds: does its coroutine yield again? */
    function Waits(asked: nat): bool {
      match this
      case Then(_) => false
      case Poll(answers) => !answers(asked)
      case PollCount(count, answers) => asked < count && !answers(asked)
      case CancelIf(_) => false
    }

    /** The value it hands on, or none if it cancels. */
    function Result(v: Value): Option {
      match this
      case Then(f) => Some(f(v))
      case Poll(_) => Some(v)
      case PollCount(_, _) => Some(v)
      case CancelIf(p) => if p(v) then None else Some(v)
    }
  }

  datatype Option = None | Some(value: Value)

  /** `State` of a control block; DEAD is set by `get()` only and left out. */
  datatype State = NEW | READY | POSTED | DONE | CANCEL

  datatype Block = Block(state: State, value: Value, hasThen: bool)

  const NEW_BLOCK := Block(NEW, 0, false)

  /** A posted request: it runs the callback of a block, and has yielded `asked` times. */
  datatype Task = Task(block: nat, asked: nat)

  /** A chain: block `i` has stage `i` attached, whose promise is block `i + 1`. */
  datatype Chain = Chain(stages: seq<Stage>, blocks: seq<Block>, queue: seq<Task>, posts: seq<nat>)

  const EMPTY := Chain([], [NEW_BLOCK], [], [])

  predicate Shape(c: Chain) {
    && |c.blocks| == |c.stages| + 1
    && forall k :: 0 <= k < |c.queue| ==> c.queue[k].block < |c.stages|
  }

  // ----- the code, on values -----

  /** `postRequest` */
  function PostRequest(c: Chain, i: nat): Chain
    requires i < |c.stages| < |c.blocks|
  {
    c.(blocks := c.blocks[i := c.blocks[i].(state := POSTED)],
       queue := c.queue + [Task(i, 0)],
       posts := c.posts + [i])
  }

  /** `Promise::setValue`; it throws on a block that already has a value. */
  function SetValue(c: Chain, i: nat, v: Value): Chain
    requires Shape(c) && i < |c.blocks|
    requires c.blocks[i].hasThen ==> i < |c.stages|
  {
    if c.blocks[i].state.NEW? then
      var d := c.(blocks := c.blocks[i := c.blocks[i].(value := v, state := READY)]);
      if c.blocks[i].hasThen then PostRequest(d, i) else d
    else c
  }

  /** `Promise::cancel` */
  function Cancel(c: Chain, i: nat): Chain
    requires i < |c.blocks|
  {
    c.(blocks := c.blocks[i := c.blocks[i].(state := CANCEL)])
  }

  /** `futureRoutine` on the last future of the chain. */
  function Attach(c: Chain, stage: Stage): Chain
    requires Shape(c)
  {
    var i := |c.stages|;
    var d := c.(stages := c.stages + [stage], blocks := c.blocks + [NEW_BLOCK]);
    match c.blocks[i].state
    case NEW => d.(blocks := d.blocks[i := d.blocks[i].(hasThen := true)])
    case READY => PostRequest(d.(blocks := d.blocks[i := d.blocks[i].(hasThen := true)]), i)
    case CANCEL => Cancel(d, i + 1)
    case _ => d
  }

  /** One resume of the front coroutine. */
  function Resume(c: Chain): Chain
    requires Shape(c) && |c.queue| > 0
    requires forall i :: 0 <= i < |c.blocks| && c.blocks[i].hasThen ==> i < |c.stages|
  {
    var t := c.queue[0];
    var d := c.(queue := c.queue[1..]);
    if c.stages[t.block].Waits(t.asked) then d.(queue := d.queue + [Task(t.block, t.asked + 1)])
    else
      var v := c.blocks[t.block].value;
      var r := c.stages[t.block].Result(v);
      var e := if r.Some? then SetValue(d, t.block + 1, r.value) else Cancel(d, t.block + 1);
      e.(blocks := e.blocks[t.block := e.blocks[t.block].(state := DONE)])
  }

  // ----- what a chain computes -----

  /** The value of block `i` when the first promise gets `v`: the composition of the stages, none
      behind a stage that cancels. */
  function ValueAt(stages: seq<Stage>, v: Value, i: nat): Option
    requires i <= |stages|
  {
    if i == 0 then Some(v)
    else
      var before := ValueAt(stages, v, i - 1);
      if before.Some? then stages[i - 1].Result(before.value) else None
  }

  /** How far a chain has come. */
  datatype Phase =
    | Unset                        // the first promise has no value
    | Running(k: nat, asked: nat)  // the request of block k is queued
    | Waiting(k: nat)              // block k is ready and nothing is attached to it
    | Cancelled(k: nat)            // block k was cancelled

  ghost predicate BlocksBefore(c: Chain, v: Value, k: nat) {
    && k < |c.blocks| == |c.stages| + 1
    && (forall i :: 0 <= i < k ==> c.blocks[i].state == DONE && Some(c.blocks[i].value) == ValueAt(c.stages, v, i))
    && |c.posts| >= k && forall i :: 0 <= i < k ==> c.posts[i] == i
  }

  /** The blocks that nothing has reached: a callback is attached to all but the last. */
  ghost predicate NewFrom(c: Chain, k: nat) {
    && |c.blocks| == |c.stages| + 1
    && forall i :: k <= i < |c.blocks| ==> c.blocks[i].state == NEW && (c.blocks[i].hasThen <==> i < |c.stages|)
  }

  /** The state of the chain in each phase. */
  ghost predicate Inv(c: Chain, v: Value, p: Phase) {
    && Shape(c)
    && (forall i :: 0 <= i < |c.blocks| && c.blocks[i].hasThen ==> i < |c.stages|)
    && match p
       case Unset => NewFrom(c, 0) && c.queue == [] && c.posts == []
       case Running(k, asked) =>
         && BlocksBefore(c, v, k) && k < |c.stages| && NewFrom(c, k + 1)
         && c.blocks[k].state == POSTED && Some(c.blocks[k].value) == ValueAt(c.stages, v, k)
         && c.queue == [Task(k, asked)] && (forall a: nat :: a < asked ==> c.stages[k].Waits(a))
         && |c.posts| == k + 1 && c.posts[k] == k
       case Waiting(k) =>
         && BlocksBefore(c, v, k) && k == |c.stages|
         && c.blocks[k].state == READY && Some(c.blocks[k].value) == ValueAt(c.stages, v, k)
         && !c.blocks[k].hasThen
         && c.queue == [] && |c.posts| == k
       case Cancelled(k) =>
         && BlocksBefore(c, v, k) && 0 < k && ValueAt(c.stages, v, k) == None
         && c.blocks[k].state == CANCEL
         && (forall i :: k < i < |c.blocks| ==> c.blocks[i].state == NEW || c.blocks[i].state == CANCEL)
         && c.queue == [] && |c.posts| == k
  }

  // ----- every step keeps the phase -----

  lemma {:induction false} ValueAtPrefix(stages: seq<Stage>, more: Stage, v: Value, i: nat)
    requires i <= |stages|
    ensures ValueAt(stages + [more], v, i) == ValueAt(stages, v, i)
  {
    if i > 0 {
      ValueAtPrefix(stages, more, v, i - 1);
    }
  }

  lemma AttachKeepsBefore(c: Chain, v: Value, k: nat, stage: Stage)
    requires Shape(c) && BlocksBefore(c, v, k) && k <= |c.stages|
    requires k == |c.stages| ==> c.blocks[k].state != DONE
    ensures BlocksBefore(Attach(c, stage), v, k)
    ensures ValueAt(Attach(c, stage).stages, v, k) == ValueAt(c.stages, v, k)
  {
    forall i | 0 <= i <= k ensures ValueAt(c.stages + [stage], v, i) == ValueAt(c.stages, v, i) {
      ValueAtPrefix(c.stages, stage, v, i);
    }
  }

  ghost function AttachPhase(p: Phase, stage: Stage): Phase {
    if p.Waiting? then Running(p.k, 0) else p
  }

  lemma AttachInv(c: Chain, v: Value, p: Phase, stage: Stage)
    requires Inv(c, v, p)
    ensures Inv(Attach(c, stage), v, AttachPhase(p, stage))
  {
    if !p.Unset? {
      AttachKeepsBefore(c, v, p.k, stage);
    }
  }

  lemma SetInv(c: Chain, v: Value)
    requires Inv(c, v, Unset)
    ensures Inv(SetValue(c, 0, v), v,
                if |c.stages| > 0 then Running(0, 0) else Waiting(0))
  {
  }

  ghost function ResumePhase(c: Chain, v: Value, p: Phase): Phase
    requires p.Running? && p.k < |c.stages|
  {
    if c.stages[p.k].Waits(p.asked) then Running(p.k, p.asked + 1)
    else if ValueAt(c.stages, v, p.k + 1) == None then Cancelled(p.k + 1)
    else if p.k + 1 < |c.stages| then Running(p.k + 1, 0)
    else Waiting(p.k + 1)
  }

  lemma ResumeInv(c: Chain, v: Value, p: Phase)
    requires Inv(c, v, p) && p.Running?
    ensures Inv(Resume(c), v, ResumePhase(c, v, p)) && Resume(c).stages == c.stages
  {
    if !c.stages[p.k].Waits(p.asked) {
      FinishInv(c, v, p.k, p.asked);
    }
  }

  /** The last resume of a request. */
  lemma FinishInv(c: Chain, v: Value, k: nat, asked: nat)
    requires Inv(c, v, Running(k, asked)) && !c.stages[k].Waits(asked)
    ensures Inv(Resume(c), v, ResumePhase(c, v, Running(k, asked))) && Resume(c).stages == c.stages
  {
    FinishBlock(c, v, k, asked);
    if ValueAt(c.stages, v, k + 1).Some? {
      FinishSets(c, v, k, asked);
    } else {
      FinishCancels(c, v, k, asked);
    }
  }

  lemma FinishBlock(c: Chain, v: Value, k: nat, asked: nat)
    requires Inv(c, v, Running(k, asked)) && !c.stages[k].Waits(asked)
    ensures Resume(c).stages == c.stages && BlocksBefore(Resume(c), v, k + 1)
    ensures c.stages[k].Result(c.blocks[k].value) == ValueAt(c.stages, v, k + 1)
  {
  }

  lemma FinishSets(c: Chain, v: Value, k: nat, asked: nat)
    requires Inv(c, v, Running(k, asked)) && !c.stages[k].Waits(asked) && BlocksBefore(Resume(c), v, k + 1)
    requires c.stages[k].Result(c.blocks[k].value) == ValueAt(c.stages, v, k + 1) != None
    ensures Inv(Resume(c), v, ResumePhase(c, v, Running(k, asked)))
  {
    assert NewFrom(Resume(c), k + 2);
  }

  lemma FinishCancels(c: Chain, v: Value, k: nat, asked: nat)
    requires Inv(c, v, Running(k, asked)) && !c.stages[k].Waits(asked) && BlocksBefore(Resume(c), v, k + 1)
    requires c.stages[k].Result(c.blocks[k].value) == ValueAt(c.stages, v, k + 1) == None
    ensures Inv(Resume(c), v, ResumePhase(c, v, Running(k, asked)))
  {
  }

  // ----- runs -----

  datatype Op = AttachStage(stage: Stage) | SetFirst(v: Value) | Pass

  /** One pass of the looper over the chain's requests: there is never more than one. */
  function PassOnce(c: Chain): Chain
    requires Shape(c)
    requires forall i :: 0 <= i < |c.blocks| && c.blocks[i].hasThen ==> i < |c.stages|
  {
    if |c.queue| > 0 then Resume(c) else c
  }

  ghost predicate IsRun(c: Chain, v: Value, p: Phase, ops: seq<Op>)
    requires Inv(c, v, p)
    decreases |ops|
  {
    |ops| > 0 ==>
      (ops[0].SetFirst? ==> p.Unset? && ops[0].v == v) &&
      (StepInv(c, v, p, ops[0]);
       IsRun(Apply(c, ops[0]), v, PhaseAfter(c, v, p, ops[0]), ops[1..]))
  }

  function Apply(c: Chain, op: Op): Chain
    requires Shape(c)
    requires forall i :: 0 <= i < |c.blocks| && c.blocks[i].hasThen ==> i < |c.stages|
  {
    match op
    case AttachStage(stage) => Attach(c, stage)
    case SetFirst(v) => SetValue(c, 0, v)
    case Pass => PassOnce(c)
  }

  ghost function PhaseAfter(c: Chain, v: Value, p: Phase, op: Op): Phase
    requires Inv(c, v, p)
  {
    match op
    case AttachStage(stage) => AttachPhase(p, stage)
    case SetFirst(_) => if |c.stages| > 0 then Running(0, 0) else Waiting(0)
    case Pass => if p.Running? then ResumePhase(c, v, p) else p
  }

  lemma StepInv(c: Chain, v: Value, p: Phase, op: Op)
    requires Inv(c, v, p) && (op.SetFirst? ==> p.Unset? && op.v == v)
    ensures Inv(Apply(c, op), v, PhaseAfter(c, v, p, op))
  {
    match op
    case AttachStage(stage) => AttachInv(c, v, p, stage);
    case SetFirst(_) => SetInv(c, v);
    case Pass =>
      if p.Running? {
        ResumeInv(c, v, p);
      }
  }

  ghost function RunFrom(c: Chain, v: Value, p: Phase, ops: seq<Op>): (r: (Chain, Phase))
    requires Inv(c, v, p) && IsRun(c, v, p, ops)
    ensures Inv(r.0, v, r.1)
    decreases |ops|
  {
    if |ops| == 0 then (c, p)
    else
      StepInv(c, v, p, ops[0]);
      RunFrom(Apply(c, ops[0]), v, PhaseAfter(c, v, p, ops[0]), ops[1..])
  }

  /** The coroutines in the looper's queue, named by their blocks. */
  function Ids(queue: seq<Task>): (ids: seq<nat>)
    ensures |ids| == |queue| && forall k :: 0 <= k < |ids| ==> ids[k] == queue[k].block
  {
    seq(|queue|, k requires 0 <= k < |queue| => queue[k].block)
  }

  /** What the looper sees of one resume: the coroutine goes on if it yields again, and else posts
      the request of the next block if that got a value and has a callback. */
  function ResumeOutcome(c: Chain): Loopers.Outcome<nat>
    requires Shape(c)
  {
    if |c.queue| == 0 then Loopers.Outcome(false, [])
    else
      var t := c.queue[0];
      var waits := c.stages[t.block].Waits(t.asked);
      var posts := !waits && c.stages[t.block].Result(c.blocks[t.block].value).Some?
                   && c.blocks[t.block + 1].state.NEW? && c.blocks[t.block + 1].hasThen;
      Loopers.Outcome(waits, if posts then [t.block + 1] else [])
  }

  /** The queue of a looper that also runs other coroutines. */
  datatype Entry = Ours(block: nat) | Foreign(id: nat)

  function OursIn(queue: seq<Entry>): seq<nat> {
    if |queue| == 0 then []
    else (if queue[0].Ours? then [queue[0].block] else []) + OursIn(queue[1..])
  }

  lemma {:induction false} OursInConcat(a: seq<Entry>, b: seq<Entry>)
    ensures OursIn(a + b) == OursIn(a) + OursIn(b)
  {
    if |a| == 0 {
      assert a + b == b;
    } else {
      var ab, first := a + b, if a[0].Ours? then [a[0].block] else [];
      assert ab[0] == a[0] && ab[1..] == a[1..] + b;
      OursInConcat(a[1..], b);
      assert OursIn(ab) == first + (OursIn(a[1..]) + OursIn(b));
    }
  }

  /** The chain's coroutine does `o`, and may post anything foreign besides; the other coroutines
      leave the chain alone. */
  ghost predicate Serves(o: Loopers.Outcome<nat>, queue: seq<Entry>, script: nat -> Loopers.Outcome<Entry>, from: nat)
    decreases |queue|
  {
    |queue| > 0 ==> ServesOnce(o, queue[0], script(from)) && Serves(o, queue[1..], script, from + 1)
  }

  ghost predicate ServesOnce(o: Loopers.Outcome<nat>, entry: Entry, done: Loopers.Outcome<Entry>) {
    if entry.Ours? then done.running == o.running && OursIn(done.posted) == o.posted
    else OursIn(done.posted) == []
  }

  /** What one resume leaves of the chain. */
  lemma OursRequeuedOnce(o: Loopers.Outcome<nat>, entry: Entry, done: Loopers.Outcome<Entry>)
    requires ServesOnce(o, entry, done)
    ensures OursIn(Loopers.Requeued(entry, done))
         == if entry.Ours? then o.posted + (if o.running then [entry.block] else []) else []
  {
    var again := if done.running then [entry] else [];
    OursInConcat(done.posted, again);
    assert OursIn(again) == if entry.Ours? && done.running then [entry.block] else [];
  }

  /** What a number of resumes leave of the chain. */
  lemma {:induction false} OursRequeued(o: Loopers.Outcome<nat>, queue: seq<Entry>,
                                        script: nat -> Loopers.Outcome<Entry>, from: nat)
    requires Serves(o, queue, script, from) && |OursIn(queue)| <= 1
    ensures OursIn(Loopers.RequeuedAll(queue, script, from))
         == if OursIn(queue) == [] then [] else o.posted + (if o.running then OursIn(queue) else [])
    decreases |queue|
  {
    if |queue| > 0 {
      var rest := queue[1..];
      var first, others := Loopers.Requeued(queue[0], script(from)), Loopers.RequeuedAll(rest, script, from + 1);
      OursRequeued(o, rest, script, from + 1);
      OursRequeuedOnce(o, queue[0], script(from));
      OursInConcat(first, others);
      assert OursIn(queue) == if queue[0].Ours? then [queue[0].block] + OursIn(rest) else OursIn(rest);
    }
  }

  lemma PassRequeues(c: Chain, v: Value, p: Phase)
    requires Inv(c, v, p) && p.Running?
    ensures |c.queue| > 0 && Ids(c.queue) == [p.k] && ResumeOutcome(c).running == c.stages[p.k].Waits(p.asked)
    ensures Ids(PassOnce(c).queue) == ResumeOutcome(c).posted + (if c.stages[p.k].Waits(p.asked) then [p.k] else [])
  {
    ResumeInv(c, v, p);
  }

  /** One pass of a looper, whatever else is in its queue, is one pass of the chain. */
  lemma PassIsLooperPass(c: Chain, v: Value, p: Phase, queue: seq<Entry>, script: nat -> Loopers.Outcome<Entry>)
    requires Inv(c, v, p) && OursIn(queue) == Ids(c.queue) && Serves(ResumeOutcome(c), queue, script, 0)
    ensures OursIn(Loopers.Steps(queue, script, 0, |queue|)) == Ids(PassOnce(c).queue)
  {
    Loopers.PassResumesEachOnce(queue, script);
    OursRequeued(ResumeOutcome(c), queue, script, 0);
    if p.Running? {
      PassRequeues(c, v, p);
    }
  }

  function AttachAll(c: Chain, stages: seq<Stage>): (d: Chain)
    requires Shape(c)
    ensures Shape(d)
    decreases |stages|
  {
    if |stages| == 0 then c else AttachAll(Attach(c, stages[0]), stages[1..])
  }

  /** Whatever is attached behind a cancelled last future is cancelled at once: nothing is posted, and
      every new future is cancelled. */
  lemma {:induction false} CancelReachesAttached(c: Chain, stages: seq<Stage>)
    requires Shape(c) && c.blocks[|c.stages|].state == CANCEL
    ensures var d := AttachAll(c, stages);
            && d.stages == c.stages + stages && d.queue == c.queue && d.posts == c.posts
            && d.blocks[..|c.blocks|] == c.blocks
            && forall i :: |c.blocks| <= i < |d.blocks| ==> d.blocks[i].state == CANCEL && !d.blocks[i].hasThen
    decreases |stages|
  {
    if |stages| == 0 {
      assert c.stages + [] == c.stages;
    } else {
      var e := Attach(c, stages[0]);
      assert e.blocks[..|c.blocks|] == c.blocks;
      CancelReachesAttached(e, stages[1..]);
      assert c.stages + [stages[0]] + stages[1..] == c.stages + stages;
      var d := AttachAll(c, stages);
      assert d.blocks[..|e.blocks|][..|c.blocks|] == d.blocks[..|c.blocks|];
      assert d.blocks[..|e.blocks|][|c.blocks|] == d.blocks[|c.blocks|];
    }
  }

  /** What a consumer of the last future can see. */
  function Outcome(c: Chain): Option
    requires |c.blocks| > 0
  {
    var last := c.blocks[|c.blocks| - 1];
    if last.state.READY? then Some(last.value) else None
  }

  lemma {:induction false} NoValueBehindCancel(stages: seq<Stage>, v: Value, k: nat, n: nat)
    requires k <= n <= |stages| && ValueAt(stages, v, k) == None
    ensures ValueAt(stages, v, n) == None
  {
    if k < n {
      NoValueBehindCancel(stages, v, k, n - 1);
    }
  }

  /** At any moment of any run, requests were posted in order, each at most once, and none behind a
      stage that cancels. */
  lemma PostsAreInOrder(v: Value, ops: seq<Op>)
    requires IsRun(EMPTY, v, Unset, ops)
    ensures var c := RunFrom(EMPTY, v, Unset, ops).0;
            forall i :: 0 <= i < |c.posts| ==> c.posts[i] == i && i < |c.stages|
                                               && ValueAt(c.stages, v, i).Some?
  {
    var (c, p) := RunFrom(EMPTY, v, Unset, ops);
    PhaseOrdersPosts(c, v, p);
  }

  lemma PhaseOrdersPosts(c: Chain, v: Value, p: Phase)
    requires Inv(c, v, p)
    ensures forall i :: 0 <= i < |c.posts| ==> c.posts[i] == i && i < |c.stages|
                                               && ValueAt(c.stages, v, i).Some?
  {
    forall i | 0 <= i < |c.posts| ensures c.posts[i] == i && ValueAt(c.stages, v, i).Some? {
      assert c.blocks[i].state == DONE || (p.Running? && i == p.k);
    }
  }

  /** Whenever the first value is set and no request is left, the last future holds the composition
      of the stages, or nothing if one of them cancelled. */
  lemma QuietChainHoldsComposition(c: Chain, v: Value, p: Phase)
    requires Inv(c, v, p) && !p.Unset? && c.queue == []
    ensures Outcome(c) == ValueAt(c.stages, v, |c.stages|)
  {
    if p.Cancelled? {
      NoValueBehindCancel(c.stages, v, p.k, |c.stages|);
    }
  }

  /** The functions of the `then` stages among the first `i`, applied in order to the first value. */
  function Piped(stages: seq<Stage>, v: Value, i: nat): Value
    requires i <= |stages|
  {
    if i == 0 then v
    else if stages[i - 1].Then? then stages[i - 1].f(Piped(stages, v, i - 1))
    else Piped(stages, v, i - 1)
  }

  /** Stage `i` cancels what the stages before it have composed. */
  predicate Cancels(stages: seq<Stage>, v: Value, i: nat)
    requires i < |stages|
  {
    stages[i].CancelIf? && stages[i].p(Piped(stages, v, i))
  }

  lemma {:induction false} ValueIsPiped(stages: seq<Stage>, v: Value, i: nat)
    requires i <= |stages|
    ensures ValueAt(stages, v, i)
         == if exists j :: 0 <= j < i && Cancels(stages, v, j) then None else Some(Piped(stages, v, i))
  {
    if i > 0 {
      ValueIsPiped(stages, v, i - 1);
      assert (exists j :: 0 <= j < i && Cancels(stages, v, j))
        <==> (exists j :: 0 <= j < i - 1 && Cancels(stages, v, j)) || Cancels(stages, v, i - 1);
    }
  }

  /** Over every run: a quiet chain is cancelled if and only if some `cancelIf` predicate is true of
      the value that the stages before it composed.  Otherwise its last future holds the functions of
      its `then` stages, applied in order to the first value, whatever its polls were asked. */
  lemma QuietRunPipes(v: Value, ops: seq<Op>)
    requires IsRun(EMPTY, v, Unset, ops)
    requires var (c, p) := RunFrom(EMPTY, v, Unset, ops); !p.Unset? && c.queue == []
    ensures var c := RunFrom(EMPTY, v, Unset, ops).0;
            var cancelled := exists j :: 0 <= j < |c.stages| && Cancels(c.stages, v, j);
            && Outcome(c) == (if cancelled then None else Some(Piped(c.stages, v, |c.stages|)))
            && ((exists i :: 0 <= i < |c.blocks| && c.blocks[i].state == CANCEL) <==> cancelled)
  {
    var (c, p) := RunFrom(EMPTY, v, Unset, ops);
    QuietChainHoldsComposition(c, v, p);
    ValueIsPiped(c.stages, v, |c.stages|);
    if p.Cancelled? {
      NoValueBehindCancel(c.stages, v, p.k, |c.stages|);
      assert c.blocks[p.k].state == CANCEL;
    }
  }

  /** Two schedules that attach the same stages and set the same value, and have no request left,
      have the same outcome, wherever they attach before or after setting. */
  lemma SchedulesAgree(v: Value, ops: seq<Op>, others: seq<Op>)
    requires IsRun(EMPTY, v, Unset, ops) && IsRun(EMPTY, v, Unset, others)
    requires var (c, p) := RunFrom(EMPTY, v, Unset, ops); var (d, q) := RunFrom(EMPTY, v, Unset, others);
             c.stages == d.stages && !p.Unset? && !q.Unset? && c.queue == [] && d.queue == []
    ensures Outcome(RunFrom(EMPTY, v, Unset, ops).0) == Outcome(RunFrom(EMPTY, v, Unset, others).0)
  {
    var (c, p) := RunFrom(EMPTY, v, Unset, ops);
    var (d, q) := RunFrom(EMPTY, v, Unset, others);
    QuietChainHoldsComposition(c, v, p);
    QuietChainHoldsComposition(d, v, q);
  }

  // ----- how many passes a chain takes -----

  /** The functor of the stage lets it go on after `n` refusals: `poll` goes on at the first true answer,
      `poll(count)` also after `count` refusals, the others at once. */
  ghost predicate Settles(stage: Stage, n: nat) {
    match stage
    case Then(_) => n == 0
    case CancelIf(_) => n == 0
    case Poll(answers) => answers(n) && forall a: nat :: a < n ==> !answers(a)
    case PollCount(count, answers) =>
      n <= count && (n == count || answers(n)) && forall a: nat :: a < n ==> !answers(a)
  }

  lemma SettlesExactly(stage: Stage, n: nat)
    ensures Settles(stage, n) <==> !stage.Waits(n) && forall a: nat :: a < n ==> stage.Waits(a)
  {
    if forall a: nat :: a < n ==> stage.Waits(a) {
      assert n > 0 ==> stage.Waits(0) && stage.Waits(n - 1);
      forall a: nat | a < n
        ensures (stage.Poll? || (stage.PollCount? && a < stage.count)) && !stage.answers(a)
      {
        assert stage.Waits(a);
      }
    }
  }

  /** After how many refusals each stage goes on. */
  ghost predicate AllSettle(stages: seq<Stage>, refusals: seq<nat>) {
    |refusals| == |stages| && forall k :: 0 <= k < |stages| ==> Settles(stages[k], refusals[k])
  }

  /** One for each, and what they sum to. */
  function Cost(refusals: seq<nat>): nat {
    if |refusals| == 0 then 0 else 1 + refusals[0] + Cost(refusals[1..])
  }

  /** Passes that a running chain still takes. */
  ghost function Remaining(c: Chain, p: Phase, refusals: seq<nat>): int
    requires p.Running? ==> p.k < |c.stages| == |refusals|
  {
    if p.Running? then Cost(refusals[p.k..]) - p.asked else 0
  }

  ghost function Passes(c: Chain, v: Value, p: Phase, n: nat): (r: (Chain, Phase))
    requires Inv(c, v, p)
    ensures Inv(r.0, v, r.1)
    decreases n
  {
    if n == 0 then (c, p)
    else
      StepInv(c, v, p, Pass);
      Passes(PassOnce(c), v, PhaseAfter(c, v, p, Pass), n - 1)
  }

  /** An attached, started chain that nothing cancels and whose polls come to an end is finished after
      exactly as many passes as it has stages and refusals left, and not earlier. */
  lemma {:induction false} ChainTakesExactly(c: Chain, v: Value, p: Phase, refusals: seq<nat>, n: nat)
    requires Inv(c, v, p) && p.Running? && AllSettle(c.stages, refusals)
    requires ValueAt(c.stages, v, |c.stages|).Some?
    requires n <= Remaining(c, p, refusals)
    ensures var (d, q) := Passes(c, v, p, n); Took(c, v, Remaining(c, p, refusals), n, d, q)
    decreases n, 1
  {
    OnePassLess(c, v, p, refusals);
    if n == 0 {
      RunningHasNoOutcome(c, v, p);
    } else {
      FirstPass(c, v, p, n);
      ChainGoesOn(c, v, p, refusals, n, PassOnce(c), ResumePhase(c, v, p));
    }
  }

  lemma FirstPass(c: Chain, v: Value, p: Phase, n: nat)
    requires Inv(c, v, p) && p.Running? && n > 0
    ensures Inv(PassOnce(c), v, ResumePhase(c, v, p))
    ensures Passes(c, v, p, n) == Passes(PassOnce(c), v, ResumePhase(c, v, p), n - 1)
  {
    StepInv(c, v, p, Pass);
  }

  /** The passes behind the first one, that has led to `d`. */
  lemma {:induction false} ChainGoesOn(c: Chain, v: Value, p: Phase, refusals: seq<nat>, n: nat, d: Chain, q: Phase)
    requires p.Running? && p.k < |c.stages| == |refusals| && n > 0
    requires Inv(d, v, q) && d.stages == c.stages && AllSettle(d.stages, refusals)
    requires ValueAt(d.stages, v, |d.stages|).Some?
    requires q.Running? || q == Waiting(|c.stages|)
    requires Remaining(d, q, refusals) == Remaining(c, p, refusals) - 1 >= n - 1
    ensures var (e, r) := Passes(d, v, q, n - 1); Took(c, v, Remaining(c, p, refusals), n, e, r)
    decreases n, 0
  {
    if q.Running? {
      ChainTakesExactly(d, v, q, refusals, n - 1);
      var (e, r) := Passes(d, v, q, n - 1);
      TookOneMore(c, d, v, Remaining(d, q, refusals), n - 1, e, r);
    } else {
      TookLast(c, v, d);
    }
  }

  lemma TookOneMore(c: Chain, d: Chain, v: Value, left: int, n: nat, e: Chain, q: Phase)
    requires Took(d, v, left, n, e, q) && d.stages == c.stages
    ensures Took(c, v, left + 1, n + 1, e, q)
  {
  }

  lemma TookLast(c: Chain, v: Value, d: Chain)
    requires Inv(d, v, Waiting(|c.stages|)) && d.stages == c.stages
    requires ValueAt(c.stages, v, |c.stages|).Some?
    ensures Took(c, v, 1, 1, d, Waiting(|c.stages|))
  {
  }

  /** After `n` of the passes that are left: the chain is still running, or has its value. */
  ghost predicate Took(c: Chain, v: Value, left: int, n: nat, d: Chain, q: Phase) {
    && d.stages == c.stages && |d.blocks| > 0
    && (n < left ==> q.Running? && Outcome(d) == None)
    && (n == left ==> q == Waiting(|c.stages|) && Outcome(d) == ValueAt(c.stages, v, |c.stages|))
  }

  lemma RunningHasNoOutcome(c: Chain, v: Value, p: Phase)
    requires Inv(c, v, p) && p.Running?
    ensures Outcome(c) == None
  {
  }

  lemma OnePassLess(c: Chain, v: Value, p: Phase, refusals: seq<nat>)
    requires Inv(c, v, p) && p.Running? && AllSettle(c.stages, refusals)
    requires ValueAt(c.stages, v, |c.stages|).Some?
    ensures var d, q := PassOnce(c), ResumePhase(c, v, p);
            && Inv(d, v, q) && d.stages == c.stages
            && 0 <= Remaining(d, q, refusals) == Remaining(c, p, refusals) - 1
            && (q.Running? ==> Remaining(d, q, refusals) > 0)
            && (q.Running? || q == Waiting(|c.stages|))
  {
    ResumeInv(c, v, p);
    if ValueAt(c.stages, v, p.k + 1) == None {
      NoValueBehindCancel(c.stages, v, p.k + 1, |c.stages|);
    }
    RefusalsLeft(c.stages[p.k], refusals[p.k], p.asked);
    CostOf(refusals, p.k);
    if p.k + 1 < |refusals| {
      CostOf(refusals, p.k + 1);
    }
  }

  /** A stage that has only been refused so far is refused again exactly if refusals are left. */
  lemma RefusalsLeft(stage: Stage, refusals: nat, asked: nat)
    requires Settles(stage, refusals) && forall a: nat :: a < asked ==> stage.Waits(a)
    ensures asked <= refusals && (stage.Waits(asked) <==> asked < refusals)
  {
    SettlesExactly(stage, refusals);
  }

  lemma CostOf(refusals: seq<nat>, k: nat)
    requires k < |refusals|
    ensures Cost(refusals[k..]) == 1 + refusals[k] + Cost(refusals[k + 1..])
  {
    assert refusals[k..][1..] == refusals[k + 1..];
  }

  /** A poll that is refused for ever keeps its chain running. */
  lemma {:induction false} RefusedPollGoesOn(c: Chain, v: Value, p: Phase, n: nat)
    requires Inv(c, v, p) && p.Running? && c.stages[p.k].Poll?
    requires forall a: nat :: !c.stages[p.k].answers(a)
    ensures Passes(c, v, p, n).1 == Running(p.k, p.asked + n)
    ensures Outcome(Passes(c, v, p, n).0) == None
    decreases n
  {
    if n > 0 {
      ResumeInv(c, v, p);
      RefusedPollGoesOn(PassOnce(c), v, ResumePhase(c, v, p), n - 1);
    }
  }

  /** The queue of the looper after one pass for each script. */
  function LooperPasses(queue: seq<Entry>, scripts: seq<nat -> Loopers.Outcome<Entry>>): seq<Entry>
    decreases |scripts|
  {
    if |scripts| == 0 then queue
    else LooperPasses(Loopers.Steps(queue, scripts[0], 0, |queue|), scripts[1..])
  }

  ghost predicate ServesAll(c: Chain, v: Value, p: Phase,
                            queue: seq<Entry>, scripts: seq<nat -> Loopers.Outcome<Entry>>)
    requires Inv(c, v, p)
    decreases |scripts|
  {
    |scripts| > 0 ==>
      && Serves(ResumeOutcome(c), queue, scripts[0], 0)
      && (StepInv(c, v, p, Pass);
          ServesAll(PassOnce(c), v, PhaseAfter(c, v, p, Pass),
                    Loopers.Steps(queue, scripts[0], 0, |queue|), scripts[1..]))
  }

  lemma {:induction false} PassesAreLooperPasses(c: Chain, v: Value, p: Phase,
                                                 queue: seq<Entry>, scripts: seq<nat -> Loopers.Outcome<Entry>>)
    requires Inv(c, v, p) && OursIn(queue) == Ids(c.queue) && ServesAll(c, v, p, queue, scripts)
    ensures OursIn(LooperPasses(queue, scripts)) == Ids(Passes(c, v, p, |scripts|).0.queue)
    decreases |scripts|
  {
    if |scripts| > 0 {
      PassIsLooperPass(c, v, p, queue, scripts[0]);
      StepInv(c, v, p, Pass);
      var d, q := PassOnce(c), PhaseAfter(c, v, p, Pass);
      var next := Loopers.Steps(queue, scripts[0], 0, |queue|);
      PassesAreLooperPasses(d, v, q, next, scripts[1..]);
      assert LooperPasses(queue, scripts) == LooperPasses(next, scripts[1..]);
      assert Passes(c, v, p, |scripts|) == Passes(d, v, q, |scripts| - 1);
    }
  }

  /** On a looper that runs any other coroutines, a running chain that nothing cancels is gone from
      the queue after exactly its remaining passes, and then has its value. */
  lemma LooperTakesExactly(c: Chain, v: Value, p: Phase, refusals: seq<nat>,
                           queue: seq<Entry>, scripts: seq<nat -> Loopers.Outcome<Entry>>)
    requires Inv(c, v, p) && p.Running? && AllSettle(c.stages, refusals)
    requires ValueAt(c.stages, v, |c.stages|).Some?
    requires OursIn(queue) == Ids(c.queue) && ServesAll(c, v, p, queue, scripts)
    requires |scripts| <= Remaining(c, p, refusals)
    ensures OursIn(LooperPasses(queue, scripts)) == [] <==> |scripts| == Remaining(c, p, refusals)
    ensures Outcome(Passes(c, v, p, |scripts|).0)
         == if |scripts| == Remaining(c, p, refusals) then ValueAt(c.stages, v, |c.stages|) else None
  {
    PassesAreLooperPasses(c, v, p, queue, scripts);
    ChainTakesExactly(c, v, p, refusals, |scripts|);
  }

  /** From the moment the first value of a fully attached chain is set: stages plus refusals. */
  lemma FullChainTakesCost(c: Chain, v: Value, refusals: seq<nat>)
    requires Inv(c, v, Unset) && |c.stages| > 0 && AllSettle(c.stages, refusals)
    requires ValueAt(c.stages, v, |c.stages|).Some?
    ensures var d, p := SetValue(c, 0, v), Running(0, 0);
            && Inv(d, v, p)
            && var (e, q) := Passes(d, v, p, Cost(refusals));
               Outcome(e) == ValueAt(c.stages, v, |c.stages|)
  {
    SetInv(c, v);
    assert refusals[0..] == refusals;
    ChainTakesExactly(SetValue(c, 0, v), v, Running(0, 0), refusals, Cost(refusals));
  }

  // ----- the code in place -----

  /** The loop of `poll(count, f)`: how often it yields, and how often it asks. */
  method PollLoop(count: nat, answers: nat -> bool) returns (waits: nat, calls: nat)
    ensures Settles(PollCount(count, answers), waits)
    ensures calls == if waits == count then count else waits + 1
  {
    waits, calls := 0, 0;
    var remain: int := count;
    while true
      invariant 0 <= remain && waits == calls == count - remain
      invariant forall a: nat :: a < waits ==> !answers(a)
      decreases remain
    {
      if remain == 0 {
        break;
      }
      remain := remain - 1;
      calls := calls + 1;
      if answers(calls - 1) {
        break;
      }
      waits := waits + 1;
    }
  }

  /** The control blocks of one chain and the looper's queue of its requests. */
  class FutureChain {
    var stages: seq<Stage>
    var blocks: seq<Block>
    var queue: seq<Task>
    ghost var posts: seq<nat>

    ghost function Abs(): Chain
      reads this
    {
      Chain(stages, blocks, queue, posts)
    }

    constructor ()
      ensures Abs() == EMPTY
    {
      stages, blocks, queue, posts := [], [NEW_BLOCK], [], [];
    }

    method PostRequestOf(i: nat)
      requires i < |stages| < |blocks|
      modifies this`blocks, this`queue, this`posts
      ensures Abs() == PostRequest(old(Abs()), i)
    {
      blocks := blocks[i := blocks[i].(state := POSTED)];
      queue := queue + [Task(i, 0)];
      posts := posts + [i];
    }

    /** `Promise::setValue` */
    method SetValueOf(i: nat, v: Value) returns (thrown: bool)
      requires Shape(Abs()) && i < |blocks|
      requires blocks[i].hasThen ==> i < |stages|
      modifies this`blocks, this`queue, this`posts
      ensures Abs() == SetValue(old(Abs()), i, v)
      ensures thrown <==> old(blocks[i].state) != NEW && old(blocks[i].state) != CANCEL
    {
      thrown := false;
      if blocks[i].state.NEW? {
        blocks := blocks[i := blocks[i].(value := v, state := READY)];
        if blocks[i].hasThen {
          PostRequestOf(i);
        }
      } else if blocks[i].state.CANCEL? {
        return;
      } else {
        thrown := true;
      }
    }

    method CancelOf(i: nat)
      requires i < |blocks|
      modifies this`blocks
      ensures Abs() == Cancel(old(Abs()), i)
    {
      blocks := blocks[i := blocks[i].(state := CANCEL)];
    }

    /** `Future::futureRoutine` on the last future. */
    method FutureRoutine(stage: Stage)
      requires Shape(Abs())
      modifies this
      ensures Abs() == Attach(old(Abs()), stage)
    {
      var i := |stages|;
      var state := blocks[i].state;
      stages := stages + [stage];
      blocks := blocks + [NEW_BLOCK];
      if state.NEW? || state.READY? {
        blocks := blocks[i := blocks[i].(hasThen := true)];
        if state.READY? {
          PostRequestOf(i);
        }
      } else if state.CANCEL? {
        CancelOf(i + 1);
      }
    }

    /** One resume of the request in front; the promise of a request in a reachable chain is still
        new, so nothing is thrown. */
    method ResumeFront(ghost v: Value, ghost p: Phase)
      requires Inv(Abs(), v, p) && p.Running?
      modifies this
      ensures Abs() == Resume(old(Abs()))
      ensures Inv(Abs(), v, ResumePhase(old(Abs()), v, p))
    {
      ResumeInv(Abs(), v, p);
      var t := queue[0];
      queue := queue[1..];
      if stages[t.block].Waits(t.asked) {
        queue := queue + [Task(t.block, t.asked + 1)];
        return;
      }
      var r := stages[t.block].Result(blocks[t.block].value);
      if r.Some? {
        var thrown := SetValueOf(t.block + 1, r.value);
        assert !thrown;
      } else {
        CancelOf(t.block + 1);
      }
      blocks := blocks[t.block := blocks[t.block].(state := DONE)];
    }
  }
}
