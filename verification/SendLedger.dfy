/** The bookkeeping of buffered sends: the queue of pending sizes `_sendProvider` and the two
    counters behind `Completion::poll`. */
module SendLedger {

  const INVALID := 0
  const FAST_COMPLETE := 1

  function Sum(sizes: seq<nat>): nat {
    if |sizes| == 0 then 0 else sizes[0] + Sum(sizes[1..])
  }

  /** The sum of the first `i` sizes. */
  function Through(sizes: seq<nat>, i: nat): nat
    requires i <= |sizes|
  {
    if i == 0 then 0 else Through(sizes, i - 1) + sizes[i - 1]
  }

  function Total(sizes: seq<nat>): nat {
    Through(sizes, |sizes|)
  }

  lemma {:induction false} ThroughAppend(sizes: seq<nat>, n: nat, i: nat)
    requires i <= |sizes|
    ensures Through(sizes + [n], i) == Through(sizes, i)
    ensures Through(sizes + [n], |sizes| + 1) == Through(sizes + [n], |sizes|) + n
  {
    if i > 0 {
      ThroughAppend(sizes, n, i - 1);
    }
  }

  lemma {:induction false} ThroughGrows(sizes: seq<nat>, i: nat, j: nat)
    requires i <= j <= |sizes|
    ensures Through(sizes, i) <= Through(sizes, j)
  {
    if i < j {
      ThroughGrows(sizes, i, j - 1);
    }
  }

  lemma {:induction false} SumOfRest(sizes: seq<nat>, i: nat)
    requires i <= |sizes|
    ensures Through(sizes, |sizes|) == Through(sizes, i) + Sum(sizes[i..])
    decreases |sizes| - i
  {
    if i < |sizes| {
      assert sizes[i..][1..] == sizes[i + 1..];
      SumOfRest(sizes, i + 1);
    }
  }

  /** What the code keeps: pending sizes and counters. */
  datatype Sends = Sends(pending: seq<nat>, current: nat, completed: nat)

  const NO_SENDS := Sends([], FAST_COMPLETE + 1, FAST_COMPLETE + 1)

  /** `Completion::poll` */
  predicate Poll(s: Sends, token: nat) {
    s.completed > token
  }

  /** A send whose last `n` bytes had to be buffered gets the current index as its token. */
  function Buffered(s: Sends, n: nat): Sends {
    s.(pending := s.pending + [n], current := s.current + 1)
  }

  /** `Handler::handleWriteComplete` for `n` flushed bytes. */
  function Flushed(s: Sends, n: nat): Sends
    decreases |s.pending|
  {
    if n == 0 || |s.pending| == 0 then s
    else if s.pending[0] > n then s.(pending := [s.pending[0] - n] + s.pending[1..])
    else Flushed(s.(pending := s.pending[1..], completed := s.completed + 1), n - s.pending[0])
  }

  ghost predicate Positive(sizes: seq<nat>) {
    forall i :: 0 <= i < |sizes| ==> sizes[i] > 0
  }

  /** `s` is what the code must hold after buffering `sizes`, in this order, and flushing `flushed`
      bytes in all. */
  ghost predicate Accounts(s: Sends, sizes: seq<nat>, flushed: nat) {
    && Positive(sizes)
    && s.current == 2 + |sizes| && 2 <= s.completed <= s.current
    && var k := s.completed - 2;
       && Through(sizes, k) <= flushed
       && (k == |sizes| ==> s.pending == [] && flushed == Through(sizes, k))
       && (k < |sizes| ==>
             flushed < Through(sizes, k + 1)
             && s.pending == [Through(sizes, k + 1) - flushed] + sizes[k + 1..])
  }

  lemma BufferedAccounts(s: Sends, sizes: seq<nat>, flushed: nat, n: nat)
    requires Accounts(s, sizes, flushed) && n > 0
    ensures Accounts(Buffered(s, n), sizes + [n], flushed)
  {
    var k := s.completed - 2;
    var more := sizes + [n];
    ThroughAppend(sizes, n, k);
    if k < |sizes| {
      ThroughAppend(sizes, n, k + 1);
      assert more[k + 1..] == sizes[k + 1..] + [n];
    }
  }

  /** The first pending send is flushed completely. */
  lemma PopAccounts(s: Sends, sizes: seq<nat>, flushed: nat)
    requires Accounts(s, sizes, flushed) && |s.pending| > 0
    ensures Accounts(Popped(s), sizes, flushed + s.pending[0])
  {
    var k := s.completed - 2;
    assert s.pending[1..] == sizes[k + 1..];
    if k + 1 < |sizes| {
      assert sizes[k + 1..] == [sizes[k + 1]] + sizes[k + 2..];
    }
  }

  function Popped(s: Sends): Sends
    requires |s.pending| > 0
  {
    Sends(s.pending[1..], s.current, s.completed + 1)
  }

  lemma PopFlushes(s: Sends, n: nat)
    requires |s.pending| > 0 && n > 0 && n >= s.pending[0]
    ensures Flushed(s, n) == Flushed(Popped(s), n - s.pending[0])
  {
  }

  /** The last step of a flush: nothing is left of it, or it takes a part of the first send. */
  lemma TakeAccounts(s: Sends, sizes: seq<nat>, flushed: nat, n: nat)
    requires Accounts(s, sizes, flushed) && flushed + n <= Total(sizes)
    requires n == 0 || |s.pending| == 0 || n < s.pending[0]
    ensures Accounts(Flushed(s, n), sizes, flushed + n)
  {
  }

  lemma {:induction false} FlushedAccounts(s: Sends, sizes: seq<nat>, flushed: nat, n: nat, total: nat)
    requires Accounts(s, sizes, flushed) && flushed + n == total <= Total(sizes)
    ensures Accounts(Flushed(s, n), sizes, total)
    decreases |s.pending|, 1
  {
    if n == 0 || |s.pending| == 0 || n < s.pending[0] {
      TakeAccounts(s, sizes, flushed, n);
    } else {
      PoppedAccounts(s, sizes, flushed, n, total);
    }
  }

  /** The flush goes on behind the first send. */
  lemma {:induction false} PoppedAccounts(s: Sends, sizes: seq<nat>, flushed: nat, n: nat, total: nat)
    requires Accounts(s, sizes, flushed) && flushed + n == total <= Total(sizes)
    requires |s.pending| > 0 && n > 0 && n >= s.pending[0]
    ensures Accounts(Flushed(s, n), sizes, total)
    decreases |s.pending|, 0
  {
    var rest, left := Popped(s), n - s.pending[0];
    assert Flushed(s, n) == Flushed(rest, left) by {
      PopFlushes(s, n);
    }
    assert Accounts(rest, sizes, flushed + s.pending[0]) by {
      PopAccounts(s, sizes, flushed);
    }
    FlushedAccounts(rest, sizes, flushed + s.pending[0], left, total);
    SameAccounts(Flushed(rest, left), Flushed(s, n), sizes, total);
  }

  lemma SameAccounts(s: Sends, t: Sends, sizes: seq<nat>, flushed: nat)
    requires s == t && Accounts(s, sizes, flushed)
    ensures Accounts(t, sizes, flushed)
  {
  }

  /** Pending sizes are positive and sum to what is buffered and not flushed, and the distance of
      the counters is the length of the queue. */
  lemma PendingIsTheRest(s: Sends, sizes: seq<nat>, flushed: nat)
    requires Accounts(s, sizes, flushed)
    ensures forall i :: 0 <= i < |s.pending| ==> s.pending[i] > 0
    ensures flushed <= Total(sizes) && Sum(s.pending) == Total(sizes) - flushed
    ensures s.current - s.completed == |s.pending|
  {
    var k := s.completed - 2;
    if k < |sizes| {
      SumOfRest(sizes, k + 1);
      assert s.pending[1..] == sizes[k + 1..];
    }
  }

  /** Buffered send number `i` polls true exactly when the flushed bytes reach all bytes buffered
      through it. */
  lemma CompletionIsExact(s: Sends, sizes: seq<nat>, flushed: nat, i: nat)
    requires Accounts(s, sizes, flushed) && i < |sizes|
    ensures Poll(s, 2 + i) <==> flushed >= Through(sizes, i + 1)
  {
    var k := s.completed - 2;
    if i < k {
      ThroughGrows(sizes, i + 1, k);
    } else {
      ThroughGrows(sizes, k + 1, i + 1);
    }
  }

  /** A completed fast send polls true at once.  So does a refused send: its token is documented
      as one that never completes. */
  lemma SmallTokensPollTrue(s: Sends, sizes: seq<nat>, flushed: nat)
    requires Accounts(s, sizes, flushed)
    ensures Poll(s, FAST_COMPLETE) && Poll(s, INVALID)
  {
  }

  // ----- every sequence of sends and flushes -----

  datatype Op = Buffer(n: nat) | Flush(n: nat)

  /** Buffered sizes are positive; the socket takes no more than is buffered. */
  predicate Legal(s: Sends, op: Op) {
    match op
    case Buffer(n) => n > 0
    case Flush(n) => n <= Sum(s.pending)
  }

  function Apply(s: Sends, op: Op): Sends {
    match op
    case Buffer(n) => Buffered(s, n)
    case Flush(n) => Flushed(s, n)
  }

  predicate IsRun(s: Sends, ops: seq<Op>)
    decreases |ops|
  {
    |ops| > 0 ==> Legal(s, ops[0]) && IsRun(Apply(s, ops[0]), ops[1..])
  }

  function RunFrom(s: Sends, ops: seq<Op>): Sends
    decreases |ops|
  {
    if |ops| == 0 then s else RunFrom(Apply(s, ops[0]), ops[1..])
  }

  function SizesOf(ops: seq<Op>): seq<nat> {
    if |ops| == 0 then [] else SizeOf(ops[0]) + SizesOf(ops[1..])
  }

  function SizeOf(op: Op): seq<nat> {
    if op.Buffer? then [op.n] else []
  }

  function FlushedBy(ops: seq<Op>): nat {
    if |ops| == 0 then 0 else FlushOf(ops[0]) + FlushedBy(ops[1..])
  }

  function FlushOf(op: Op): nat {
    if op.Flush? then op.n else 0
  }

  lemma ApplyAccounts(s: Sends, sizes: seq<nat>, flushed: nat, op: Op)
    requires Accounts(s, sizes, flushed) && Legal(s, op)
    ensures Accounts(Apply(s, op), sizes + SizeOf(op), flushed + FlushOf(op))
  {
    PendingIsTheRest(s, sizes, flushed);
    match op
    case Buffer(n) => BufferedAccounts(s, sizes, flushed, n);
    case Flush(n) =>
      FlushedAccounts(s, sizes, flushed, n, flushed + n);
      assert sizes + [] == sizes;
  }

  lemma {:induction false} RunAccounts(s: Sends, sizes: seq<nat>, flushed: nat, ops: seq<Op>,
                                       all: seq<nat>, total: nat)
    requires Accounts(s, sizes, flushed) && IsRun(s, ops)
    requires all == sizes + SizesOf(ops) && total == flushed + FlushedBy(ops)
    ensures Accounts(RunFrom(s, ops), all, total)
    decreases |ops|
  {
    if |ops| == 0 {
      assert all == sizes;
    } else {
      ApplyAccounts(s, sizes, flushed, ops[0]);
      var more := sizes + SizeOf(ops[0]);
      Associate(sizes, SizeOf(ops[0]), SizesOf(ops[1..]));
      RunAccounts(Apply(s, ops[0]), more, flushed + FlushOf(ops[0]), ops[1..], all, total);
    }
  }

  lemma Associate(a: seq<nat>, b: seq<nat>, c: seq<nat>)
    ensures a + (b + c) == a + b + c
  {
  }

  /** Over every run from the empty queue: send `i` has completed exactly when the bytes flushed so
      far reach the bytes buffered through it, and the queue holds exactly the rest. */
  lemma EveryRunCompletesExactly(ops: seq<Op>, i: nat)
    requires IsRun(NO_SENDS, ops) && i < |SizesOf(ops)|
    ensures var s, sizes, flushed := RunFrom(NO_SENDS, ops), SizesOf(ops), FlushedBy(ops);
            && (Poll(s, 2 + i) <==> flushed >= Through(sizes, i + 1))
            && flushed <= Total(sizes) && Sum(s.pending) == Total(sizes) - flushed
            && s.current - s.completed == |s.pending|
  {
    var s, sizes, flushed := RunFrom(NO_SENDS, ops), SizesOf(ops), FlushedBy(ops);
    assert Accounts(s, sizes, flushed) by {
      assert [] + sizes == sizes;
      RunAccounts(NO_SENDS, [], 0, ops, sizes, flushed);
    }
    PendingIsTheRest(s, sizes, flushed);
    CompletionIsExact(s, sizes, flushed, i);
  }
}
