/** Progress of the log: a record that fits is put, one that does not asks for a swap, and records
    reach the files without any request. */
module LogProgress {
  import opened LogProtocol

  // ----- a record that fits is put -----

  function OwnSteps(steps: seq<Step>, i: nat): nat {
    if |steps| == 0 then 0
    else (if IsOwn(steps[0], i) then 1 else 0) + OwnSteps(steps[1..], i)
  }

  predicate IsOwn(step: Step, i: nat) {
    step.ByProducer? && step.id == i
  }

  predicate FlagStaysUp(s: State, steps: seq<Step>)
    requires IsRun(s, steps)
    decreases |steps|
  {
    s.sflag && (|steps| > 0 ==> FlagStaysUp(Next(s, steps[0]), steps[1..]))
  }

  /** Producer `i` is about to put `r` where it stands: it has found that `r` fits, or its swap has
      come. */
  ghost predicate CanPut(s: State, i: nat, r: string) {
    && i < |s.producers|
    && ((s.producers[i] == Check(r) && s.rcur + |r| < s.cap)
        || (s.producers[i] == Spin(r) && s.sflag && |r| <= s.cap))
  }

  /** Where producer `i` is after `k` more steps of its own. */
  function PutStage(first: Producer, r: string, buf: nat, k: nat): Producer {
    if k == 0 then first
    else if k <= |r| + 1 then Copy(r, buf, k - 1)
    else if k == |r| + 2 then Advance(r)
    else if k == |r| + 3 then Unlock
    else Idle
  }

  /** `t` is between `s` and the end of the put, `k` own steps later. */
  ghost predicate Putting(s: State, t: State, i: nat, r: string, k: nat)
    requires CanPut(s, i, r)
  {
    && Inv(t) && t.sflag && t.cap == s.cap && t.ridx == s.ridx < |s.bufs|
    && s.rcur + |r| <= s.cap == |s.bufs[s.ridx]|
    && t.rmtx == (if k < |r| + 4 then Producing(i) else Nobody)
    && i < |t.producers| && t.producers[i] == PutStage(s.producers[i], r, s.ridx, k)
    && t.rcur == s.rcur + (if k < |r| + 3 then 0 else |r|)
    && t.bufs[t.ridx][..s.rcur] == s.bufs[s.ridx][..s.rcur]
    && (k >= |r| + 2 ==> t.bufs[t.ridx][s.rcur..s.rcur + |r|] == r)
  }

  lemma PutStarts(s: State, i: nat, r: string)
    requires Inv(s) && CanPut(s, i, r)
    ensures Putting(s, s, i, r, 0)
  {
    assert s.rmtx == Producing(i);
  }

  /** The putting producer is never blocked. */
  lemma PutIsNotBlocked(s: State, t: State, i: nat, r: string, k: nat)
    requires CanPut(s, i, r) && Putting(s, t, i, r, k) && k < |r| + 4
    ensures ProducerEnabled(t, i)
  {
  }

  lemma OwnStepPuts(s: State, t: State, i: nat, r: string, k: nat, rec: string)
    requires CanPut(s, i, r) && Putting(s, t, i, r, k) && k < |r| + 4 && ProducerEnabled(t, i)
    ensures Putting(s, ProducerNext(t, i, rec), i, r, k + 1)
  {
    StepKeepsInv(t, ByProducer(i, rec));
    if 1 <= k <= |r| {
      ByteIsPut(s, t, i, r, k, rec);
    } else if k == |r| + 1 {
      AllBytesArePut(s, t, i, r, rec);
    } else if k == 0 {
      PutBegins(s, t, i, r, rec);
    }
  }

  lemma PutBegins(s: State, t: State, i: nat, r: string, rec: string)
    requires CanPut(s, i, r) && Putting(s, t, i, r, 0) && ProducerEnabled(t, i)
    requires Inv(ProducerNext(t, i, rec))
    ensures Putting(s, ProducerNext(t, i, rec), i, r, 1)
  {
  }

  lemma AllBytesArePut(s: State, t: State, i: nat, r: string, rec: string)
    requires CanPut(s, i, r) && Putting(s, t, i, r, |r| + 1) && ProducerEnabled(t, i)
    requires Inv(ProducerNext(t, i, rec))
    ensures Putting(s, ProducerNext(t, i, rec), i, r, |r| + 2)
  {
    assert CopyIsExact(t, t.producers[i]);
    assert r[..|r|] == r;
  }

  /** One byte is copied behind the bytes that are already there. */
  lemma ByteIsPut(s: State, t: State, i: nat, r: string, k: nat, rec: string)
    requires CanPut(s, i, r) && Putting(s, t, i, r, k) && 1 <= k <= |r| && ProducerEnabled(t, i)
    requires Inv(ProducerNext(t, i, rec))
    ensures Putting(s, ProducerNext(t, i, rec), i, r, k + 1)
  {
    var u := ProducerNext(t, i, rec);
    assert u.bufs[u.ridx][..s.rcur] == t.bufs[t.ridx][..s.rcur];
  }

  lemma OtherStepSparesPut(s: State, t: State, i: nat, r: string, k: nat, step: Step)
    requires CanPut(s, i, r) && Putting(s, t, i, r, k) && k < |r| + 4
    requires Enabled(t, step) && !IsOwn(step, i)
    ensures Putting(s, Next(t, step), i, r, k)
  {
    StepKeepsInv(t, step);
    match step
    case ByProducer(j, rec) =>
      assert !t.producers[j].HoldsR();
    case ByWriter(timedOut, lucky, n) =>
      assert t.writer.Swap? ==> t.writer.request && t.writer.at >= 5;
      WriterSparesCopy(t, timedOut, lucky, n);
      WriterSparesReadLock(t, timedOut, lucky, n);
  }

  lemma WriterSparesReadLock(s: State, timedOut: bool, lucky: bool, n: nat)
    requires Locks(s) && s.rmtx.Producing? && s.sflag && WriterEnabled(s, n)
    ensures WriterNext(s, timedOut, lucky, n).rmtx == s.rmtx && WriterNext(s, timedOut, lucky, n).sflag
  {
  }

  lemma {:induction false} PutGoesOn(s: State, t: State, i: nat, r: string, k: nat, steps: seq<Step>)
    requires CanPut(s, i, r) && Putting(s, t, i, r, k) && IsRun(t, steps)
    requires k + OwnSteps(steps, i) == |r| + 4
    requires |steps| > 0 ==> IsOwn(steps[|steps| - 1], i)
    ensures Putting(s, RunFrom(t, steps), i, r, |r| + 4) && FlagStaysUp(t, steps)
    decreases |steps|
  {
    if |steps| > 0 {
      LastIsOwn(steps, i);
      var u, rest := Next(t, steps[0]), steps[1..];
      if IsOwn(steps[0], i) {
        OwnStepPuts(s, t, i, r, k, steps[0].rec);
        PutGoesOn(s, u, i, r, k + 1, rest);
      } else {
        OtherStepSparesPut(s, t, i, r, k, steps[0]);
        PutGoesOn(s, u, i, r, k, rest);
      }
    }
  }

  lemma {:induction false} LastIsOwn(steps: seq<Step>, i: nat)
    requires |steps| > 0 && IsOwn(steps[|steps| - 1], i)
    ensures OwnSteps(steps, i) > 0
  {
    if |steps| > 1 {
      LastIsOwn(steps[1..], i);
    }
  }

  /** At its end the record stands behind what was there. */
  lemma PutEnds(s: State, t: State, i: nat, r: string)
    requires CanPut(s, i, r) && Putting(s, t, i, r, |r| + 4) && |s.bufs| == 2
    ensures t.rmtx == Nobody && i < |t.producers| && t.producers[i] == Idle
    ensures t.ridx == s.ridx < |s.bufs| == |t.bufs|
    ensures t.rcur == s.rcur + |r| <= |t.bufs[t.ridx]| == |s.bufs[s.ridx]|
    ensures t.bufs[t.ridx][..t.rcur] == s.bufs[s.ridx][..s.rcur] + r
  {
    var b := t.bufs[s.ridx];
    assert b[..s.rcur + |r|] == b[..s.rcur] + b[s.rcur..s.rcur + |r|];
  }

  /** Progress of a put: a producer that holds rmtx with a record that fits, or whose swap has come,
      has appended the record after `|r| + 4` steps of its own, whatever the other threads do in
      between; it has then released rmtx, and nobody has lowered the flag. */
  lemma RecordIsPut(start: State, before: seq<Step>, i: nat, r: string, steps: seq<Step>)
    requires Initial(start) && IsRun(start, before) && CanPut(RunFrom(start, before), i, r)
    requires IsRun(RunFrom(start, before), steps)
    requires OwnSteps(steps, i) == |r| + 4 && IsOwn(steps[|steps| - 1], i)
    ensures var s := RunFrom(start, before); var t := RunFrom(s, steps);
            && FlagStaysUp(s, steps) && t.rmtx == Nobody
            && i < |t.producers| && t.producers[i] == Idle
            && t.ridx == s.ridx < |s.bufs| == |t.bufs|
            && t.rcur == s.rcur + |r| <= |t.bufs[t.ridx]| == |s.bufs[s.ridx]|
            && t.bufs[t.ridx][..t.rcur] == s.bufs[s.ridx][..s.rcur] + r
  {
    InitialInv(start);
    RunKeepsInv(start, before);
    var s := RunFrom(start, before);
    assert Inv(s) && |s.bufs| == 2;
    PutStarts(s, i, r);
    PutGoesOn(s, s, i, r, 0, steps);
    PutEnds(s, RunFrom(s, steps), i, r);
  }

  // ----- a record that does not fit asks -----

  /** Where a producer is `k` own steps after it has found that its record does not fit. */
  ghost predicate Asking(t: State, i: nat, r: string, k: nat) {
    && Inv(t) && i < |t.producers| && t.rmtx == Producing(i)
    && match k
       case 0 => t.producers[i] == Check(r) && t.rcur + |r| >= t.cap
       case 1 => t.producers[i] == LockSwap(r)
       case 2 => t.producers[i] == Request(r)
       case _ => t.producers[i] == UnlockSwap(r) && !t.sflag
  }

  lemma StepKeepsAsking(t: State, i: nat, r: string, k: nat, step: Step)
    requires Asking(t, i, r, k) && k < 3 && Enabled(t, step)
    ensures Asking(Next(t, step), i, r, if IsOwn(step, i) then k + 1 else k)
  {
    StepKeepsInv(t, step);
    match step
    case ByProducer(j, rec) =>
      assert j != i ==> !t.producers[j].HoldsR();
    case ByWriter(timedOut, lucky, n) =>
      WriterSparesReadLock(t, timedOut, lucky, n);
      assert t.writer.Swap? ==> t.writer.request && t.writer.at >= 5;
      WriterSparesCopy(t, timedOut, lucky, n);
  }

  lemma {:induction false} AskingGoesOn(t: State, i: nat, r: string, k: nat, steps: seq<Step>)
    requires Asking(t, i, r, k) && k <= 3 && IsRun(t, steps) && k + OwnSteps(steps, i) == 3
    requires |steps| > 0 ==> IsOwn(steps[|steps| - 1], i)
    ensures Asking(RunFrom(t, steps), i, r, 3)
    decreases |steps|
  {
    if |steps| > 0 {
      LastIsOwn(steps, i);
      StepKeepsAsking(t, i, r, k, steps[0]);
      AskingGoesOn(Next(t, steps[0]), i, r, if IsOwn(steps[0], i) then k + 1 else k, steps[1..]);
    }
  }

  /** A record that does not fit is not put yet: after three steps of its own the producer has lowered
      the flag, and still holds rmtx. */
  lemma RecordAsks(start: State, before: seq<Step>, i: nat, r: string, steps: seq<Step>)
    requires Initial(start) && IsRun(start, before) && i < |RunFrom(start, before).producers|
    requires var s := RunFrom(start, before); s.producers[i] == Check(r) && s.rcur + |r| >= s.cap
    requires IsRun(RunFrom(start, before), steps)
    requires OwnSteps(steps, i) == 3 && IsOwn(steps[|steps| - 1], i)
    ensures var t := RunFrom(RunFrom(start, before), steps);
            !t.sflag && t.rmtx == Producing(i) && i < |t.producers| && t.producers[i] == UnlockSwap(r)
  {
    InitialInv(start);
    RunKeepsInv(start, before);
    assert RunFrom(start, before).rmtx == Producing(i);
    AskingGoesOn(RunFrom(start, before), i, r, 0, steps);
  }

  // ----- the writer frees smtx -----

  /** Writer steps left until it unlocks smtx. */
  function HoldRank(w: Writer): nat {
    match w
    case Pred(_) => 12
    case Try => 11
    case Swap(at, _) => if at < 8 then 10 - at else 2
    case UnlockR => 2
    case UnlockS(_) => 1
    case _ => 0
  }

  predicate SwapLockFreed(s: State, steps: seq<Step>)
    requires IsRun(s, steps)
    decreases |steps|
  {
    s.smtx != Writing || (|steps| > 0 && SwapLockFreed(Next(s, steps[0]), steps[1..]))
  }

  lemma WriterStepLowersHold(s: State, timedOut: bool, lucky: bool, n: nat)
    requires Shape(s) && Locks(s) && Indices(s) && s.smtx == Writing && WriterEnabled(s, n)
    ensures var t := WriterNext(s, timedOut, lucky, n);
            t.smtx != Writing || HoldRank(t.writer) < HoldRank(s.writer)
  {
    assert s.writer.HoldsS();
  }

  lemma ProducerStepSparesHold(s: State, i: nat, rec: string)
    requires Inv(s) && s.smtx == Writing && ProducerEnabled(s, i)
    ensures ProducerNext(s, i, rec).smtx == Writing && ProducerNext(s, i, rec).writer == s.writer
  {
  }

  /** The writer does not keep smtx: a producer that wants to ask gets its turn after twelve writer
      steps at most. */
  lemma {:induction false} SwapLockComesFree(s: State, steps: seq<Step>)
    requires Inv(s) && IsRun(s, steps) && (s.smtx == Writing ==> WriterSteps(steps) >= HoldRank(s.writer))
    ensures SwapLockFreed(s, steps)
    decreases |steps|
  {
    if s.smtx == Writing {
      assert HoldRank(s.writer) > 0;
      StepKeepsInv(s, steps[0]);
      match steps[0]
      case ByProducer(i, rec) =>
        ProducerStepSparesHold(s, i, rec);
        SwapLockComesFree(Next(s, steps[0]), steps[1..]);
      case ByWriter(timedOut, lucky, n) =>
        WriterStepLowersHold(s, timedOut, lucky, n);
        SwapLockComesFree(Next(s, steps[0]), steps[1..]);
    }
  }

  // ----- a timeout drains the front buffer -----

  /** The writer, on its way from a timeout to the end of the write. */
  ghost predicate Draining(s: State) {
    && Inv(s) && !s.rmtx.Producing?
    && match s.writer
       case Sleep => s.rmtx == Nobody && s.smtx != Writing
       case Pred(timedOut) => timedOut && s.rmtx == Nobody
       case Try => s.rmtx == Nobody
       case Swap(at, request) => !request && (at >= 4 ==> s.rcur == 0)
       case UnlockR => s.rcur == 0
       case UnlockS(swapped) => swapped && s.rcur == 0
       case Write(_) => s.rcur == 0
       case Loop => false
  }

  function DrainRank(s: State): nat {
    match s.writer
    case Sleep => s.cap + 15
    case Pred(_) => s.cap + 14
    case Try => s.cap + 13
    case Swap(at, _) => s.cap + 4 + (if at < 8 then 8 - at else 0)
    case UnlockR => s.cap + 3
    case UnlockS(_) => s.cap + 2
    case Write(d) => 1 + (if d < s.cur then s.cur - d else 0)
    case Loop => 0
  }

  ghost predicate AllWritten(s: State) {
    s.writer.Loop? && s.file == Concat(s.log)
  }

  predicate TimesOut(step: Step) {
    step.ByWriter? && step.timedOut && step.lucky
  }

  lemma DrainStep(s: State, step: Step)
    requires Draining(s) && Enabled(s, step) && TimesOut(step)
    ensures var t := Next(s, step);
            && t.log == s.log && t.cap == s.cap
            && (AllWritten(t) || (Draining(t) && DrainRank(t) < DrainRank(s)))
  {
    StepKeepsInv(s, step);
    if s.writer.Write? {
      DrainWriteStep(s, step);
    } else if s.writer.Swap? {
      DrainSwapStep(s, step);
    } else {
      DrainLockStep(s, step);
    }
  }

  lemma DrainWriteStep(s: State, step: Step)
    requires Draining(s) && Enabled(s, step) && TimesOut(step) && s.writer.Write? && Inv(Next(s, step))
    ensures var t := Next(s, step);
            && t.log == s.log && t.cap == s.cap
            && (AllWritten(t) || (Draining(t) && DrainRank(t) < DrainRank(s)))
  {
    var t := Next(s, step);
    if s.writer.done >= s.cur {
      assert Drained(t) == "" && Appended(t) == "" && InFlight(t) == "";
      assert t.file + "" + "" + "" == t.file;
    }
  }

  lemma DrainSwapStep(s: State, step: Step)
    requires Draining(s) && Enabled(s, step) && TimesOut(step) && s.writer.Swap? && Inv(Next(s, step))
    ensures var t := Next(s, step);
            t.log == s.log && t.cap == s.cap && Draining(t) && DrainRank(t) < DrainRank(s)
  {
    SwapHoldsItsLocks(s);
  }

  lemma DrainLockStep(s: State, step: Step)
    requires Draining(s) && Enabled(s, step) && TimesOut(step) && Inv(Next(s, step))
    requires !s.writer.Write? && !s.writer.Swap?
    ensures var t := Next(s, step);
            t.log == s.log && t.cap == s.cap && Draining(t) && DrainRank(t) < DrainRank(s)
  {
    assert s.sflag;
  }

  ghost predicate DrainedWithin(s: State, steps: seq<Step>)
    requires IsRun(s, steps)
    decreases |steps|
  {
    AllWritten(s) || (|steps| > 0 && DrainedWithin(Next(s, steps[0]), steps[1..]))
  }

  lemma {:induction false} DrainGoesOn(s: State, steps: seq<Step>)
    requires Draining(s) && IsRun(s, steps) && |steps| >= DrainRank(s)
    requires forall k :: 0 <= k < |steps| ==> TimesOut(steps[k])
    ensures DrainedWithin(s, steps)
    decreases |steps|
  {
    if |steps| > 0 {
      DrainStep(s, steps[0]);
      var t := Next(s, steps[0]);
      if !AllWritten(t) {
        DrainGoesOn(t, steps[1..]);
      }
    }
  }

  /** Without any request: when the wait of the writer times out while nobody holds rmtx, the files
      hold the whole log after at most `cap + 15` steps of the writer alone. */
  lemma TimeoutDrains(start: State, before: seq<Step>, steps: seq<Step>)
    requires Initial(start) && IsRun(start, before)
    requires var s := RunFrom(start, before); s.writer == Sleep && s.rmtx == Nobody
    requires IsRun(RunFrom(start, before), steps) && |steps| >= start.cap + 15
    requires forall k :: 0 <= k < |steps| ==> TimesOut(steps[k])
    ensures DrainedWithin(RunFrom(start, before), steps)
  {
    InitialInv(start);
    RunKeepsInv(start, before);
    CapacityStays(start, before);
    DrainGoesOn(RunFrom(start, before), steps);
  }
}
