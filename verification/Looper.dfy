/** The cooperative event loop: `Looper::loop` resumes each queued coroutine once, in a loop that is
    unrolled four times. */
module Loopers {

  /** What one `resume` does: does the coroutine go on, and what did it post. */
  datatype Outcome<T> = Outcome(running: bool, posted: seq<T>)

  /** `n` calls of `loopOnceUnchecked`, the first being number `k` of the pass. */
  function Steps<T>(queue: seq<T>, script: nat -> Outcome<T>, k: nat, n: nat): seq<T>
    requires n <= |queue|
    decreases n
  {
    if n == 0 then queue
    else Steps(queue[1..] + Requeued(queue[0], script(k)), script, k + 1, n - 1)
  }

  /** What a resume puts at the end of the queue: the posted tasks, then the coroutine itself if it
      has not finished. */
  function Requeued<T>(task: T, o: Outcome<T>): seq<T> {
    o.posted + (if o.running then [task] else [])
  }

  /** What the resumes of `tasks` put at the end of the queue. */
  function RequeuedAll<T>(tasks: seq<T>, script: nat -> Outcome<T>, k: nat): seq<T>
    decreases |tasks|
  {
    if |tasks| == 0 then []
    else Requeued(tasks[0], script(k)) + RequeuedAll(tasks[1..], script, k + 1)
  }

  /** A number of single steps moves exactly the first tasks of the queue through `resume`, in
      order; what they post or leave behind comes after everything that was queued before. */
  lemma {:induction false} StepsResumeInOrder<T>(queue: seq<T>, script: nat -> Outcome<T>, k: nat, n: nat)
    requires n <= |queue|
    ensures Steps(queue, script, k, n) == queue[n..] + RequeuedAll(queue[..n], script, k)
    decreases n
  {
    if n == 0 {
      assert queue[0..] + [] == queue;
    } else {
      var back := Requeued(queue[0], script(k));
      var next := queue[1..] + back;
      StepsResumeInOrder(next, script, k + 1, n - 1);
      assert next[..n - 1] == queue[..n][1..];
      assert next[n - 1..] == queue[n..] + back;
      assert queue[n..] + back + RequeuedAll(queue[..n][1..], script, k + 1)
          == queue[n..] + RequeuedAll(queue[..n], script, k);
    }
  }

  /** A whole pass: nothing of the old queue is left in front, so tasks posted during the pass wait
      for the next one. */
  lemma PassResumesEachOnce<T>(queue: seq<T>, script: nat -> Outcome<T>)
    ensures Steps(queue, script, 0, |queue|) == RequeuedAll(queue, script, 0)
  {
    StepsResumeInOrder(queue, script, 0, |queue|);
    assert queue[..|queue|] == queue;
  }

  /** The tasks of a queue that go on. */
  function Survivors<T>(tasks: seq<T>, script: nat -> Outcome<T>, k: nat): seq<T>
    decreases |tasks|
  {
    if |tasks| == 0 then []
    else (if script(k).running then [tasks[0]] else []) + Survivors(tasks[1..], script, k + 1)
  }

  /** `part` lies in `whole` at the positions `at`, in order. */
  ghost predicate InOrder<T>(part: seq<T>, whole: seq<T>, at: seq<nat>) {
    && |at| == |part|
    && (forall i :: 0 <= i < |at| ==> at[i] < |whole| && whole[at[i]] == part[i])
    && forall i, j :: 0 <= i < j < |at| ==> at[i] < at[j]
  }

  lemma InOrderBehind<T>(front: seq<T>, part: seq<T>, whole: seq<T>, at: seq<nat>) returns (behind: seq<nat>)
    requires InOrder(part, whole, at)
    ensures InOrder(part, front + whole, behind)
    ensures forall i :: 0 <= i < |behind| ==> behind[i] >= |front|
  {
    behind := seq(|at|, i requires 0 <= i < |at| => at[i] + |front|);
  }

  /** One more element, that lies before all the others. */
  lemma InOrderWith<T>(first: T, part: seq<T>, whole: seq<T>, p: nat, at: seq<nat>)
    requires InOrder(part, whole, at) && p < |whole| && whole[p] == first
    requires forall i :: 0 <= i < |at| ==> p < at[i]
    ensures InOrder([first] + part, whole, [p] + at)
  {
  }

  /** Survivors keep their relative order, whatever the resumes of the pass post in between. */
  lemma {:induction false} SurvivorsKeepOrder<T>(tasks: seq<T>, script: nat -> Outcome<T>, k: nat)
    returns (at: seq<nat>)
    ensures InOrder(Survivors(tasks, script, k), RequeuedAll(tasks, script, k), at)
    decreases |tasks|
  {
    if |tasks| == 0 {
      return [];
    }
    var o, front := script(k), Requeued(tasks[0], script(k));
    var part, whole := Survivors(tasks[1..], script, k + 1), RequeuedAll(tasks[1..], script, k + 1);
    at := SurvivorsKeepOrder(tasks[1..], script, k + 1);
    at := InOrderBehind(front, part, whole, at);
    assert RequeuedAll(tasks, script, k) == front + whole;
    if o.running {
      InOrderWith(tasks[0], part, front + whole, |o.posted|, at);
      at := [|o.posted|] + at;
    } else {
      assert Survivors(tasks, script, k) == [] + part == part;
    }
  }

  /** Without posts they are the whole next queue. */
  lemma {:induction false} SurvivorsAreNext<T>(tasks: seq<T>, script: nat -> Outcome<T>, k: nat)
    requires forall i: nat :: k <= i < k + |tasks| ==> script(i).posted == []
    ensures RequeuedAll(tasks, script, k) == Survivors(tasks, script, k)
    decreases |tasks|
  {
    if |tasks| > 0 {
      SurvivorsAreNext(tasks[1..], script, k + 1);
      assert script(k).posted == [];
    }
  }

  lemma {:induction false} StepsCompose<T>(queue: seq<T>, script: nat -> Outcome<T>, k: nat, m: nat, n: nat)
    requires m + n <= |queue|
    ensures |Steps(queue, script, k, m)| >= n
    ensures Steps(Steps(queue, script, k, m), script, k + m, n) == Steps(queue, script, k, m + n)
    decreases m
  {
    if m > 0 {
      StepsCompose(queue[1..] + Requeued(queue[0], script(k)), script, k + 1, m - 1, n);
    }
  }

  class Looper<T> {
    var mq: seq<T>
    var clock: nat                 // resumes of this pass so far
    ghost var resumed: seq<T>      // the coroutines they resumed

    constructor ()
      ensures mq == [] && clock == 0 && resumed == []
    {
      mq, clock, resumed := [], 0, [];
    }

    /** `done` steps of the pass over `queue` are made. */
    ghost predicate Progress(queue: seq<T>, before: seq<T>, script: nat -> Outcome<T>, done: nat)
      reads this
    {
      && clock == done <= |queue|
      && mq == Steps(queue, script, 0, done)
      && resumed == before + queue[..done]
    }

    /** `loopOnceUnchecked`: never called on an empty queue. */
    method LoopOnceUnchecked(script: nat -> Outcome<T>, ghost queue: seq<T>, ghost before: seq<T>)
      requires Progress(queue, before, script, clock) && clock < |queue|
      modifies this
      ensures |old(mq)| > 0
      ensures Progress(queue, before, script, old(clock) + 1)
      // what it has posted comes before the coroutine itself
      ensures mq == old(mq)[1..] + script(old(clock)).posted
                    + (if script(old(clock)).running then [old(mq)[0]] else [])
      ensures resumed == old(resumed) + [old(mq)[0]]
    {
      NextStep(queue, script, clock);
      var co := mq[0];
      mq := mq[1..];
      resumed := resumed + [co];
      var o := script(clock);
      clock := clock + 1;
      mq := mq + o.posted;
      if o.running {
        mq := mq + [co];
      }
      assert mq == old(mq)[1..] + Requeued(co, o);
      assert queue[..clock] == queue[..old(clock)] + [co];
    }

    method Loop2x(script: nat -> Outcome<T>, ghost queue: seq<T>, ghost before: seq<T>)
      requires Progress(queue, before, script, clock) && clock + 2 <= |queue|
      modifies this
      ensures Progress(queue, before, script, old(clock) + 2)
    {
      LoopOnceUnchecked(script, queue, before);
      LoopOnceUnchecked(script, queue, before);
    }

    method Loop4x(script: nat -> Outcome<T>, ghost queue: seq<T>, ghost before: seq<T>)
      requires Progress(queue, before, script, clock) && clock + 4 <= |queue|
      modifies this
      ensures Progress(queue, before, script, old(clock) + 4)
    {
      Loop2x(script, queue, before);
      Loop2x(script, queue, before);
    }

    /** `unroll4x`: the loop unrolled by 4, 2 and 1 is one pass of single steps, and it never pops an
        empty queue. */
    method Unroll4x(script: nat -> Outcome<T>)
      modifies this
      ensures mq == Steps(old(mq), script, 0, |old(mq)|)
      ensures mq == RequeuedAll(old(mq), script, 0)
      ensures resumed == old(resumed) + old(mq)
    {
      clock := 0;
      var width := |mq|;
      var quarter, two, one := width / 4, (width / 2) % 2, width % 2;
      BinaryDigits(width);
      ghost var queue, before := mq, resumed;
      assert Progress(queue, before, script, 0);
      Unroll(quarter, two, one, script, queue, before);
      assert queue[..width] == queue;
      PassResumesEachOnce(queue, script);
    }

    /** The loop of the unrolling macro, given the width's quotient by 4 and its two lowest bits. */
    method Unroll(quarter: nat, two: nat, one: nat, script: nat -> Outcome<T>,
                  ghost queue: seq<T>, ghost before: seq<T>)
      requires two < 2 && one < 2 && 4 * quarter + 2 * two + one == |queue|
      requires clock == 0 && Progress(queue, before, script, 0)
      modifies this
      ensures Progress(queue, before, script, |queue|)
    {
      var increment := quarter;
      while increment > 0
        invariant 0 <= increment && clock == 4 * (quarter - increment)
        invariant Progress(queue, before, script, clock)
      {
        Loop4x(script, queue, before);
        increment := increment - 1;
      }
      if two == 1 {
        Loop2x(script, queue, before);
      }
      if one == 1 {
        LoopOnceUnchecked(script, queue, before);
      }
    }
  }

  lemma BinaryDigits(width: nat)
    ensures 4 * (width / 4) + 2 * ((width / 2) % 2) + width % 2 == width
  {
    var half := width / 2;
    assert width == 2 * half + width % 2;
    HalfOfHalf(width);
  }

  lemma HalfOfHalf(width: nat)
    ensures width / 4 == width / 2 / 2
  {
  }

  /** The next step of a pass takes the next task of the old queue. */
  lemma NextStep<T>(queue: seq<T>, script: nat -> Outcome<T>, done: nat)
    requires done < |queue|
    ensures var now := Steps(queue, script, 0, done);
            && |now| > 0 && now[0] == queue[done]
            && Steps(queue, script, 0, done + 1) == now[1..] + Requeued(now[0], script(done))
  {
    StepsResumeInOrder(queue, script, 0, done);
    StepsCompose(queue, script, 0, done, 1);
    var now := Steps(queue, script, 0, done);
    var next := now[1..] + Requeued(now[0], script(done));
    assert Steps(next, script, done + 1, 0) == next;
  }
}
