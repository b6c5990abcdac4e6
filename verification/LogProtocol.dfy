/** The double-buffered log of `Scheduler::apply` and `Wthread::writeFunc`: any number of producers
    append records to one buffer while one writer thread drains the other.  Every step is one
    access to shared state, and every interleaving of steps is a run. */
module LogProtocol {

  /** Who holds a mutex. */
  datatype Owner = Nobody | Producing(id: nat) | Writing

  /** Where a producer is in `Scheduler::apply`. */
  datatype Producer =
    | Idle
    | Lock(rec: string)                        // locking rmtx
    | Check(rec: string)                       // does the record fit?
    | LockSwap(rec: string)                    // locking smtx
    | Request(rec: string)                     // sflag = false
    | UnlockSwap(rec: string)                  // leaving the scope of smtx
    | Spin(rec: string)                        // while(!sflag) notify
    | Copy(rec: string, buf: nat, done: nat)   // Resolver::put
    | Advance(rec: string)                     // rcur += calspace
    | Unlock                                   // leaving the scope of rmtx
  {
    predicate HoldsR() {
      !Idle? && !Lock?
    }

    predicate HoldsS() {
      Request? || UnlockSwap?
    }

    /** The record that the holder of rmtx has not yet added to the buffer. */
    function Held(): string {
      if Idle? || Lock? || Unlock? then "" else rec
    }
  }

  /** Where the writer is in `Wthread::writeFunc`. */
  datatype Writer =
    | Loop                                     // locking smtx
    | Pred(timedOut: bool)                     // wait_for evaluates !sflag
    | Sleep                                    // waiting, smtx released
    | Try                                      // timed out: rmtx.try_lock()
    | Swap(at: nat, request: bool)             // before assignment number `at` of swap()
    | UnlockR                                  // leaving the scope of rmtx
    | UnlockS(swapped: bool)                   // leaving the scope of smtx
    | Write(done: nat)                         // File::append
  {
    predicate HoldsR() {
      UnlockR? || (Swap? && !request)
    }

    predicate HoldsS() {
      Pred? || Try? || Swap? || UnlockR? || UnlockS?
    }

    /** After swap() and before the drained buffer is written. */
    predicate Swapped() {
      UnlockR? || (UnlockS? && swapped) || Write?
    }
  }

  datatype State = State(
    cap: nat, bufs: seq<string>,
    ridx: nat, rcur: nat, widx: nat, wcur: nat,
    sflag: bool, rmtx: Owner, smtx: Owner,
    producers: seq<Producer>,
    writer: Writer, cur: nat, idx: nat,
    file: string,           // bytes written to the log files, in order
    log: seq<string>)       // records in the order in which their producers locked rmtx

  /** What the scheduler, the clock and write(2) decide: which thread moves, the record a new call
      brings, whether a wait times out, whether try_lock gets a free lock, how much is written. */
  datatype Step =
    | ByProducer(id: nat, rec: string)
    | ByWriter(timedOut: bool, lucky: bool, n: nat)

  predicate Initial(s: State) {
    && |s.bufs| == 2 && |s.bufs[0]| == s.cap && |s.bufs[1]| == s.cap
    && s.ridx == 0 && s.rcur == 0 && s.widx == 1 && s.wcur == 0
    && s.sflag && s.rmtx == Nobody && s.smtx == Nobody
    && (forall i :: 0 <= i < |s.producers| ==> s.producers[i] == Idle)
    && s.writer == Loop && s.cur == 0 && s.idx == 1
    && s.file == "" && s.log == []
  }

  // ----- steps -----

  predicate ProducerEnabled(s: State, i: nat) {
    && i < |s.producers|
    && match s.producers[i]
       case Lock(_) => s.rmtx == Nobody
       case LockSwap(_) => s.smtx == Nobody
       // a byte behind the end of the buffer has no defined effect
       case Copy(r, b, k) => k >= |r| || (b < |s.bufs| && s.rcur + k < |s.bufs[b]|)
       case _ => true
  }

  function ProducerNext(s: State, i: nat, rec: string): State
    requires ProducerEnabled(s, i)
  {
    match s.producers[i]
    case Idle => s.(producers := s.producers[i := Lock(rec)])
    case Lock(r) =>
      s.(rmtx := Producing(i), log := s.log + [r], producers := s.producers[i := Check(r)])
    case Check(r) =>
      s.(producers := s.producers[i := if s.rcur + |r| >= s.cap then LockSwap(r)
                                       else Copy(r, s.ridx, 0)])
    case LockSwap(r) => s.(smtx := Producing(i), producers := s.producers[i := Request(r)])
    case Request(r) => s.(sflag := false, producers := s.producers[i := UnlockSwap(r)])
    case UnlockSwap(r) => s.(smtx := Nobody, producers := s.producers[i := Spin(r)])
    case Spin(r) => if s.sflag then s.(producers := s.producers[i := Copy(r, s.ridx, 0)]) else s
    case Copy(r, b, k) =>
      if k >= |r| then s.(producers := s.producers[i := Advance(r)])
      else s.(bufs := s.bufs[b := s.bufs[b][s.rcur + k := r[k]]],
              producers := s.producers[i := Copy(r, b, k + 1)])
    case Advance(r) => s.(rcur := s.rcur + |r|, producers := s.producers[i := Unlock])
    case Unlock => s.(rmtx := Nobody, producers := s.producers[i := Idle])
  }

  predicate WriterEnabled(s: State, n: nat) {
    match s.writer
    case Loop => s.smtx == Nobody
    case Sleep => s.smtx == Nobody
    case Write(d) => d < s.cur ==> 1 <= n <= s.cur - d && s.idx < |s.bufs| && s.cur <= |s.bufs[s.idx]|
    case _ => true
  }

  function Flip(i: nat): nat {
    if i == 0 then 1 else 0
  }

  /** The eight assignments of swap(). */
  function SwapNext(s: State): State
    requires s.writer.Swap?
  {
    var q := s.writer.request;
    match s.writer.at
    case 0 => s.(ridx := Flip(s.ridx), writer := Swap(1, q))
    case 1 => s.(widx := Flip(s.widx), writer := Swap(2, q))
    case 2 => s.(wcur := s.rcur, writer := Swap(3, q))
    case 3 => s.(rcur := 0, writer := Swap(4, q))
    case 4 => s.(sflag := true, writer := Swap(5, q))
    case 5 => s.(cur := s.wcur, writer := Swap(6, q))
    case 6 => s.(wcur := 0, writer := Swap(7, q))
    case _ => s.(idx := s.widx, writer := if q then UnlockS(true) else UnlockR)
  }

  function WriterNext(s: State, timedOut: bool, lucky: bool, n: nat): State
    requires WriterEnabled(s, n)
  {
    match s.writer
    case Loop => s.(smtx := Writing, writer := Pred(false))
    case Pred(t) =>
      if !s.sflag then s.(writer := Swap(0, true))
      else if t then s.(writer := Try)
      else s.(smtx := Nobody, writer := Sleep)
    case Sleep => s.(smtx := Writing, writer := Pred(timedOut))
    case Try =>
      if lucky && s.rmtx == Nobody then s.(rmtx := Writing, writer := Swap(0, false))
      else s.(writer := UnlockS(false))
    case Swap(_, _) => SwapNext(s)
    case UnlockR => s.(rmtx := Nobody, writer := UnlockS(true))
    case UnlockS(swapped) => s.(smtx := Nobody, writer := if swapped then Write(0) else Loop)
    case Write(d) =>
      if d >= s.cur then s.(writer := Loop)
      else s.(file := s.file + s.bufs[s.idx][d..d + n], writer := Write(d + n))
  }

  predicate Enabled(s: State, step: Step) {
    match step
    case ByProducer(i, _) => ProducerEnabled(s, i)
    case ByWriter(_, _, n) => WriterEnabled(s, n)
  }

  function Next(s: State, step: Step): State
    requires Enabled(s, step)
  {
    match step
    case ByProducer(i, rec) => ProducerNext(s, i, rec)
    case ByWriter(timedOut, lucky, n) => WriterNext(s, timedOut, lucky, n)
  }

  /** A run: every step is enabled where it is taken. */
  predicate IsRun(s: State, steps: seq<Step>)
    decreases |steps|
  {
    |steps| > 0 ==> Enabled(s, steps[0]) && IsRun(Next(s, steps[0]), steps[1..])
  }

  function RunFrom(s: State, steps: seq<Step>): State
    requires IsRun(s, steps)
    decreases |steps|
  {
    if |steps| == 0 then s else RunFrom(Next(s, steps[0]), steps[1..])
  }

  // ----- what every step keeps -----

  ghost predicate Shape(s: State) {
    && |s.bufs| == 2 && |s.bufs[0]| == s.cap && |s.bufs[1]| == s.cap
    && s.ridx < 2 && s.widx < 2 && s.idx < 2
    && s.rcur <= s.cap && s.wcur <= s.cap && s.cur <= s.cap
  }

  /** Program counters and the owner of rmtx agree. */
  ghost predicate ReadLock(s: State) {
    && (forall i :: 0 <= i < |s.producers| ==>
          (s.producers[i].HoldsR() <==> s.rmtx == Producing(i)))
    && (s.rmtx.Producing? ==> s.rmtx.id < |s.producers|)
    && (s.writer.HoldsR() <==> s.rmtx == Writing)
  }

  /** Program counters and the owner of smtx agree. */
  ghost predicate SwapLock(s: State) {
    && (forall i :: 0 <= i < |s.producers| ==>
          (s.producers[i].HoldsS() <==> s.smtx == Producing(i)))
    && (s.smtx.Producing? ==> s.smtx.id < |s.producers|)
    && (s.writer.HoldsS() <==> s.smtx == Writing)
  }

  ghost predicate Locks(s: State) {
    ReadLock(s) && SwapLock(s)
  }

  /** A lowered flag means that the holder of rmtx is a producer that waits for a swap. */
  ghost predicate Waiting(s: State) {
    && s.rmtx.Producing? && s.rmtx.id < |s.producers|
    && (s.producers[s.rmtx.id].UnlockSwap? || s.producers[s.rmtx.id].Spin?)
  }

  ghost predicate Flag(s: State) {
    && (!s.sflag ==> Waiting(s))
    && (forall i :: 0 <= i < |s.producers| && s.producers[i].UnlockSwap? ==> !s.sflag)
    && (s.writer.Swap? && s.writer.request ==> (s.sflag <==> s.writer.at >= 5))
    && (s.writer.Swap? && !s.writer.request ==> s.sflag)
    && (s.writer.Try? || s.writer.UnlockR? || s.writer.UnlockS? ==> s.sflag)
  }

  /** The two buffer indices differ except between the first two assignments of swap(). */
  ghost predicate Indices(s: State) {
    && (s.ridx + s.widx == 1 <==> !(s.writer.Swap? && s.writer.at == 1))
    && (s.writer.Swap? ==> s.writer.at < 8)
    && (s.writer.Swap? && s.writer.at == 3 ==> s.wcur == s.rcur)
    && (s.writer.Swap? && s.writer.at == 4 ==> s.rcur == 0)
    && (s.writer.Swapped() ==> s.idx == s.widx)
    && (s.writer.Write? ==> s.writer.done <= s.cur)
    && (forall i :: 0 <= i < |s.producers| && s.producers[i].Spin? && s.sflag ==> s.rcur == 0)
  }

  /** The producer that copies finds the bytes it has copied behind `rcur`. */
  ghost predicate CopyIsExact(s: State, p: Producer)
    requires Shape(s)
  {
    match p
    case Copy(r, b, k) =>
      && b == s.ridx && k <= |r| && s.rcur + k <= s.cap
      && s.bufs[s.ridx][s.rcur..s.rcur + k] == r[..k]
      && (s.rcur + |r| <= s.cap || s.rcur == 0)
    case Advance(r) =>
      s.rcur + |r| <= s.cap && s.bufs[s.ridx][s.rcur..s.rcur + |r|] == r
    case _ => true
  }

  ghost predicate Copying(s: State)
    requires Shape(s)
  {
    forall i :: 0 <= i < |s.producers| ==> CopyIsExact(s, s.producers[i])
  }

  /** Bytes handed to the writer and not yet written. */
  function Drained(s: State): string {
    var b := if s.widx < |s.bufs| then s.bufs[s.widx] else "";
    match s.writer
    case Swap(at, _) =>
      if at < 4 || |b| < s.wcur || |b| < s.cur then "" else if at < 6 then b[..s.wcur] else b[..s.cur]
    case UnlockR => if |b| < s.cur then "" else b[..s.cur]
    case UnlockS(swapped) => if !swapped || |b| < s.cur then "" else b[..s.cur]
    case Write(d) => if d <= s.cur <= |b| then b[d..s.cur] else ""
    case _ => ""
  }

  /** Bytes that producers have appended and that no swap has handed over. */
  function Appended(s: State): string
  {
    var i := if s.writer.Swap? && 1 <= s.writer.at <= 3 then Flip(s.ridx) else s.ridx;
    if i < |s.bufs| && s.rcur <= |s.bufs[i]| then s.bufs[i][..s.rcur] else ""
  }

  /** The record of the producer that holds rmtx, until it is added to the buffer. */
  function InFlight(s: State): string {
    if s.rmtx.Producing? && s.rmtx.id < |s.producers| then s.producers[s.rmtx.id].Held() else ""
  }

  function Concat(log: seq<string>): string {
    if |log| == 0 then "" else Concat(log[..|log| - 1]) + log[|log| - 1]
  }

  /** Nothing is lost, doubled or reordered. */
  ghost predicate Accounted(s: State)
    requires Shape(s)
  {
    s.file + Drained(s) + Appended(s) + InFlight(s) == Concat(s.log)
  }

  ghost predicate Inv(s: State) {
    Shape(s) && Locks(s) && Flag(s) && Indices(s) && Copying(s) && Accounted(s)
  }

  lemma InitialInv(s: State)
    requires Initial(s)
    ensures Inv(s)
  {
  }

  // ----- producer steps -----

  lemma ProducerKeepsShape(s: State, i: nat, rec: string)
    requires Shape(s) && Copying(s) && ProducerEnabled(s, i)
    ensures Shape(ProducerNext(s, i, rec))
  {
    assert CopyIsExact(s, s.producers[i]);
  }

  lemma ProducerKeepsLocks(s: State, i: nat, rec: string)
    requires Locks(s) && ProducerEnabled(s, i)
    ensures Locks(ProducerNext(s, i, rec))
  {
    ProducerKeepsReadLock(s, i, rec);
    ProducerKeepsSwapLock(s, i, rec);
  }

  lemma ProducerKeepsReadLock(s: State, i: nat, rec: string)
    requires ReadLock(s) && ProducerEnabled(s, i)
    ensures ReadLock(ProducerNext(s, i, rec))
  {
  }

  lemma ProducerKeepsSwapLock(s: State, i: nat, rec: string)
    requires SwapLock(s) && ProducerEnabled(s, i)
    ensures SwapLock(ProducerNext(s, i, rec))
  {
  }

  lemma ProducerKeepsFlag(s: State, i: nat, rec: string)
    requires Locks(s) && Flag(s) && ProducerEnabled(s, i)
    ensures Flag(ProducerNext(s, i, rec))
  {
  }

  lemma ProducerKeepsIndices(s: State, i: nat, rec: string)
    requires Locks(s) && Flag(s) && Indices(s) && ProducerEnabled(s, i)
    ensures Indices(ProducerNext(s, i, rec))
  {
  }

  /** While a producer copies, no swap is between its first and its fifth assignment. */
  lemma CopyExcludesSwap(s: State, i: nat)
    requires Locks(s) && Flag(s) && i < |s.producers|
    requires s.producers[i].Copy? || s.producers[i].Advance?
    ensures s.sflag && s.rmtx == Producing(i)
    ensures s.writer.Swap? ==> s.writer.request && s.writer.at >= 5
  {
    assert s.rmtx == Producing(i);
  }

  /** The copying producer holds rmtx, so there is at most one. */
  lemma OthersDoNotCopy(s: State, i: nat, j: nat)
    requires Locks(s) && i < |s.producers| && j < |s.producers| && i != j
    ensures s.producers[i].HoldsR() ==> !s.producers[j].Copy? && !s.producers[j].Advance?
  {
  }

  lemma CopyOneByte(s: State, t: State, r: string, k: nat)
    requires Shape(s) && Shape(t) && s.rcur == t.rcur && s.ridx == t.ridx
    requires CopyIsExact(s, Copy(r, s.ridx, k)) && k < |r| && s.rcur + k < s.cap
    requires t.cap == s.cap && t.bufs == s.bufs[s.ridx := s.bufs[s.ridx][s.rcur + k := r[k]]]
    ensures CopyIsExact(t, Copy(r, s.ridx, k + 1))
  {
    var before := s.bufs[s.ridx][s.rcur..s.rcur + k];
    assert t.bufs[s.ridx][s.rcur..s.rcur + k + 1] == before + [r[k]];
  }

  lemma CopyGoesOn(s: State, i: nat, rec: string)
    requires Shape(s) && Copying(s) && ProducerEnabled(s, i)
    requires s.producers[i].Spin? && s.sflag ==> s.rcur == 0
    ensures var t := ProducerNext(s, i, rec); Shape(t) && CopyIsExact(t, t.producers[i])
  {
    ProducerKeepsShape(s, i, rec);
    var t := ProducerNext(s, i, rec);
    assert CopyIsExact(s, s.producers[i]);
    if s.producers[i].Copy? && s.producers[i].done < |s.producers[i].rec| {
      CopyOneByte(s, t, s.producers[i].rec, s.producers[i].done);
    } else if s.producers[i].Copy? {
      assert s.producers[i].rec[..s.producers[i].done] == s.producers[i].rec;
    }
  }

  lemma ProducerKeepsCopying(s: State, i: nat, rec: string)
    requires Shape(s) && Locks(s) && Indices(s) && Copying(s) && ProducerEnabled(s, i)
    ensures Shape(ProducerNext(s, i, rec)) && Copying(ProducerNext(s, i, rec))
  {
    CopyGoesOn(s, i, rec);
    var t := ProducerNext(s, i, rec);
    forall j | 0 <= j < |t.producers| ensures CopyIsExact(t, t.producers[j]) {
      if j != i {
        OtherCopiesSpared(s, i, j, rec);
      }
    }
  }

  lemma OtherCopiesSpared(s: State, i: nat, j: nat, rec: string)
    requires Shape(s) && Locks(s) && Copying(s) && ProducerEnabled(s, i)
    requires j < |s.producers| && i != j
    ensures var t := ProducerNext(s, i, rec); Shape(t) && CopyIsExact(t, t.producers[j])
  {
    ProducerKeepsShape(s, i, rec);
    OthersDoNotCopy(s, i, j);
    assert CopyIsExact(s, s.producers[j]);
    if !s.producers[i].Copy? && !s.producers[i].Advance? {
      var t := ProducerNext(s, i, rec);
      assert t.bufs == s.bufs && t.ridx == s.ridx && t.rcur == s.rcur && t.cap == s.cap;
    }
  }

  /** A copied byte lands outside what is accounted for. */
  lemma CopyKeepsContents(s: State, i: nat, rec: string)
    requires Shape(s) && Locks(s) && Flag(s) && Indices(s) && Copying(s) && ProducerEnabled(s, i)
    requires s.producers[i].Copy?
    ensures var t := ProducerNext(s, i, rec);
            && Shape(t) && Drained(t) == Drained(s) && Appended(t) == Appended(s)
            && InFlight(t) == InFlight(s) && t.log == s.log && t.file == s.file
  {
    ProducerKeepsShape(s, i, rec);
    CopyExcludesSwap(s, i);
    assert CopyIsExact(s, s.producers[i]);
  }

  lemma AdvanceMovesRecord(s: State, i: nat, rec: string)
    requires Shape(s) && Locks(s) && Flag(s) && Indices(s) && Copying(s) && ProducerEnabled(s, i)
    requires s.producers[i].Advance?
    ensures var t := ProducerNext(s, i, rec);
            && Shape(t) && Drained(t) == Drained(s)
            && InFlight(t) == "" && Appended(t) == Appended(s) + InFlight(s)
            && t.log == s.log && t.file == s.file
  {
    ProducerKeepsShape(s, i, rec);
    CopyExcludesSwap(s, i);
    assert CopyIsExact(s, s.producers[i]);
  }

  lemma LockAccountsRecord(s: State, i: nat, rec: string)
    requires Shape(s) && Locks(s) && Copying(s) && ProducerEnabled(s, i)
    requires s.producers[i].Lock?
    ensures var t := ProducerNext(s, i, rec);
            && Shape(t) && Drained(t) == Drained(s) && Appended(t) == Appended(s)
            && InFlight(s) == "" && Concat(t.log) == Concat(s.log) + InFlight(t) && t.file == s.file
  {
    ProducerKeepsShape(s, i, rec);
    var t := ProducerNext(s, i, rec);
    assert t.log[..|t.log| - 1] == s.log;
  }

  /** The remaining producer steps touch no buffer and no record. */
  lemma OtherStepsKeepContents(s: State, i: nat, rec: string)
    requires Shape(s) && Locks(s) && Copying(s) && ProducerEnabled(s, i)
    requires !s.producers[i].Copy? && !s.producers[i].Advance? && !s.producers[i].Lock?
    ensures var t := ProducerNext(s, i, rec);
            && Shape(t) && Drained(t) == Drained(s) && Appended(t) == Appended(s)
            && InFlight(t) == InFlight(s) && t.log == s.log && t.file == s.file
  {
    ProducerKeepsShape(s, i, rec);
  }

  lemma ProducerKeepsAccounted(s: State, i: nat, rec: string)
    requires Inv(s) && ProducerEnabled(s, i)
    ensures Shape(ProducerNext(s, i, rec)) && Accounted(ProducerNext(s, i, rec))
  {
    if s.producers[i].Lock? {
      LockAccountsRecord(s, i, rec);
    } else if s.producers[i].Copy? {
      CopyKeepsContents(s, i, rec);
    } else if s.producers[i].Advance? {
      AdvanceMovesRecord(s, i, rec);
      Regroup(s.file + Drained(s), Appended(s), InFlight(s));
    } else {
      OtherStepsKeepContents(s, i, rec);
    }
  }

  // ----- writer steps -----

  lemma WriterKeepsShape(s: State, timedOut: bool, lucky: bool, n: nat)
    requires Shape(s) && WriterEnabled(s, n)
    ensures Shape(WriterNext(s, timedOut, lucky, n))
  {
  }

  lemma SwapHoldsItsLocks(s: State)
    requires s.writer.Swap? && s.writer.at < 8
    ensures var t := SwapNext(s);
            && t.rmtx == s.rmtx && t.smtx == s.smtx && t.producers == s.producers
            && t.writer.HoldsR() == s.writer.HoldsR() && t.writer.HoldsS()
  {
  }

  lemma SwapKeepsLocks(s: State)
    requires Locks(s) && Indices(s) && s.writer.Swap?
    ensures Locks(SwapNext(s))
  {
    SwapHoldsItsLocks(s);
    LocksDependOn(s, SwapNext(s));
  }

  lemma LocksDependOn(s: State, t: State)
    requires Locks(s)
    requires t.rmtx == s.rmtx && t.smtx == s.smtx && t.producers == s.producers
    requires t.writer.HoldsR() == s.writer.HoldsR() && t.writer.HoldsS() == s.writer.HoldsS()
    ensures Locks(t)
  {
  }

  lemma SwapKeepsFlag(s: State)
    requires Locks(s) && Flag(s) && Indices(s) && s.writer.Swap?
    ensures Flag(SwapNext(s))
  {
  }

  lemma SwapKeepsIndices(s: State)
    requires Indices(s) && s.writer.Swap? && s.ridx < 2 && s.widx < 2
    ensures Indices(SwapNext(s))
  {
    if s.writer.at < 3 {
      EarlySwapKeepsIndices(s);
    } else {
      LateSwapKeepsIndices(s);
    }
  }

  lemma EarlySwapKeepsIndices(s: State)
    requires Indices(s) && s.writer.Swap? && s.writer.at < 3 && s.ridx < 2 && s.widx < 2
    ensures Indices(SwapNext(s))
  {
  }

  lemma LateSwapKeepsIndices(s: State)
    requires Indices(s) && s.writer.Swap? && s.writer.at >= 3 && s.ridx < 2 && s.widx < 2
    ensures Indices(SwapNext(s))
  {
  }

  lemma WriterKeepsLocks(s: State, timedOut: bool, lucky: bool, n: nat)
    requires Locks(s) && WriterEnabled(s, n) && !s.writer.Swap?
    ensures Locks(WriterNext(s, timedOut, lucky, n))
  {
  }

  lemma WriterKeepsFlag(s: State, timedOut: bool, lucky: bool, n: nat)
    requires Locks(s) && Flag(s) && WriterEnabled(s, n) && !s.writer.Swap?
    ensures Flag(WriterNext(s, timedOut, lucky, n))
  {
  }

  lemma WriterKeepsIndices(s: State, timedOut: bool, lucky: bool, n: nat)
    requires Indices(s) && WriterEnabled(s, n) && !s.writer.Swap?
    ensures Indices(WriterNext(s, timedOut, lucky, n))
  {
  }

  lemma WriterKeepsCopying(s: State, timedOut: bool, lucky: bool, n: nat)
    requires Shape(s) && Locks(s) && Flag(s) && Copying(s) && WriterEnabled(s, n)
    ensures var t := WriterNext(s, timedOut, lucky, n); Shape(t) && Copying(t)
  {
    WriterKeepsShape(s, timedOut, lucky, n);
    var t := WriterNext(s, timedOut, lucky, n);
    assert t.producers == s.producers;
    forall j | 0 <= j < |t.producers| ensures CopyIsExact(t, t.producers[j]) {
      WriterKeepsCopy(s, timedOut, lucky, n, j);
    }
  }

  lemma WriterKeepsCopy(s: State, timedOut: bool, lucky: bool, n: nat, j: nat)
    requires Shape(s) && Locks(s) && Flag(s) && Copying(s) && WriterEnabled(s, n) && j < |s.producers|
    ensures var t := WriterNext(s, timedOut, lucky, n);
            Shape(t) && t.producers == s.producers && CopyIsExact(t, t.producers[j])
  {
    WriterKeepsShape(s, timedOut, lucky, n);
    assert CopyIsExact(s, s.producers[j]);
    if s.producers[j].Copy? || s.producers[j].Advance? {
      CopyExcludesSwap(s, j);
      WriterSparesCopy(s, timedOut, lucky, n);
    }
  }

  lemma WriterSparesCopy(s: State, timedOut: bool, lucky: bool, n: nat)
    requires WriterEnabled(s, n)
    requires s.writer.Swap? ==> s.writer.at >= 5
    ensures var t := WriterNext(s, timedOut, lucky, n);
            t.bufs == s.bufs && t.ridx == s.ridx && t.rcur == s.rcur && t.cap == s.cap
            && t.producers == s.producers
  {
  }

  /** The first assignments of swap() turn the appended bytes into drained ones. */
  lemma SwapKeepsContents(s: State)
    requires Shape(s) && Indices(s) && s.writer.Swap?
    ensures var t := SwapNext(s);
            && Shape(t) && Drained(t) + Appended(t) == Drained(s) + Appended(s)
            && InFlight(t) == InFlight(s) && t.file == s.file && t.log == s.log
  {
    if s.writer.at == 3 {
      SwapHandsOver(s);
    } else {
      SwapSparesDrained(s);
      SwapSparesAppended(s);
    }
    SwapKeepsShape(s);
    SwapSparesRecords(s);
  }

  lemma SwapKeepsShape(s: State)
    requires Shape(s) && Indices(s) && s.writer.Swap?
    ensures Shape(SwapNext(s))
  {
  }

  /** `rcur = 0` hands the appended bytes over. */
  lemma SwapHandsOver(s: State)
    requires Shape(s) && Indices(s) && s.writer.Swap? && s.writer.at == 3
    ensures var t := SwapNext(s); Drained(t) == Appended(s) && Appended(t) == "" && Drained(s) == ""
  {
  }

  lemma SwapSparesRecords(s: State)
    requires s.writer.Swap?
    ensures var t := SwapNext(s); InFlight(t) == InFlight(s) && t.file == s.file && t.log == s.log
  {
  }

  lemma SwapSparesDrained(s: State)
    requires Shape(s) && Indices(s) && s.writer.Swap? && s.writer.at != 3
    ensures Drained(SwapNext(s)) == Drained(s)
  {
  }

  lemma SwapSparesAppended(s: State)
    requires Shape(s) && Indices(s) && s.writer.Swap? && s.writer.at != 3
    ensures Appended(SwapNext(s)) == Appended(s)
  {
    if s.writer.at >= 4 {
      assert SwapNext(s).bufs == s.bufs && SwapNext(s).ridx == s.ridx && SwapNext(s).rcur == s.rcur;
    }
  }

  lemma WriteMovesBytes(s: State, timedOut: bool, lucky: bool, n: nat)
    requires Shape(s) && Indices(s) && s.writer.Write? && WriterEnabled(s, n)
    ensures var t := WriterNext(s, timedOut, lucky, n);
            && Shape(t) && t.file + Drained(t) == s.file + Drained(s)
            && Appended(t) == Appended(s) && InFlight(t) == InFlight(s) && t.log == s.log
  {
    WriteKeepsBytes(s, timedOut, lucky, n);
    WriteSparesAppended(s, timedOut, lucky, n);
  }

  lemma WriteKeepsBytes(s: State, timedOut: bool, lucky: bool, n: nat)
    requires Shape(s) && Indices(s) && s.writer.Write? && WriterEnabled(s, n)
    ensures var t := WriterNext(s, timedOut, lucky, n); t.file + Drained(t) == s.file + Drained(s)
  {
    if s.writer.done < s.cur {
      SplitBytes(s.file, s.bufs[s.idx], s.writer.done, n, s.cur);
    }
  }

  lemma SplitBytes(file: string, b: string, d: nat, n: nat, cur: nat)
    requires d + n <= cur <= |b|
    ensures file + b[d..d + n] + b[d + n..cur] == file + b[d..cur]
  {
    assert b[d..cur] == b[d..d + n] + b[d + n..cur];
  }

  lemma WriteSparesAppended(s: State, timedOut: bool, lucky: bool, n: nat)
    requires Shape(s) && s.writer.Write? && WriterEnabled(s, n)
    ensures var t := WriterNext(s, timedOut, lucky, n);
            Shape(t) && Appended(t) == Appended(s) && InFlight(t) == InFlight(s) && t.log == s.log
  {
  }

  lemma OtherWriterStepsKeepContents(s: State, timedOut: bool, lucky: bool, n: nat)
    requires Shape(s) && Locks(s) && !s.writer.Write? && !s.writer.Swap?
    requires WriterEnabled(s, n)
    ensures var t := WriterNext(s, timedOut, lucky, n);
            && Shape(t) && t.file == s.file && Drained(t) == Drained(s)
            && Appended(t) == Appended(s) && InFlight(t) == InFlight(s) && t.log == s.log
  {
    var t := WriterNext(s, timedOut, lucky, n);
    assert t.bufs == s.bufs && t.widx == s.widx && t.ridx == s.ridx && t.rcur == s.rcur && t.cur == s.cur;
    assert Appended(t) == Appended(s);
    assert s.rmtx.Producing? ==> t.rmtx == s.rmtx;
  }

  lemma SwapKeepsAccounted(s: State)
    requires Shape(s) && Indices(s) && Accounted(s) && s.writer.Swap?
    ensures Shape(SwapNext(s)) && Accounted(SwapNext(s))
  {
    SwapKeepsContents(s);
    Regroup(s.file, Drained(s), Appended(s));
    Regroup(s.file, Drained(SwapNext(s)), Appended(SwapNext(s)));
  }

  lemma Regroup(file: string, drained: string, appended: string)
    ensures file + drained + appended == file + (drained + appended)
  {
  }

  lemma WriterKeepsAccounted(s: State, timedOut: bool, lucky: bool, n: nat)
    requires Shape(s) && Locks(s) && Indices(s) && Accounted(s) && WriterEnabled(s, n)
    ensures var t := WriterNext(s, timedOut, lucky, n); Shape(t) && Accounted(t)
  {
    if s.writer.Swap? {
      SwapKeepsAccounted(s);
    } else if s.writer.Write? {
      WriteMovesBytes(s, timedOut, lucky, n);
    } else {
      OtherWriterStepsKeepContents(s, timedOut, lucky, n);
    }
  }

  // ----- runs -----

  lemma StepKeepsInv(s: State, step: Step)
    requires Inv(s) && Enabled(s, step)
    ensures Inv(Next(s, step))
  {
    match step
    case ByProducer(i, rec) =>
      ProducerKeepsLocks(s, i, rec);
      ProducerKeepsFlag(s, i, rec);
      ProducerKeepsIndices(s, i, rec);
      ProducerKeepsCopying(s, i, rec);
      ProducerKeepsAccounted(s, i, rec);
    case ByWriter(timedOut, lucky, n) =>
      if s.writer.Swap? {
        SwapKeepsLocks(s);
        SwapKeepsFlag(s);
        SwapKeepsIndices(s);
      } else {
        WriterKeepsLocks(s, timedOut, lucky, n);
        WriterKeepsFlag(s, timedOut, lucky, n);
        WriterKeepsIndices(s, timedOut, lucky, n);
      }
      WriterKeepsCopying(s, timedOut, lucky, n);
      WriterKeepsAccounted(s, timedOut, lucky, n);
  }

  lemma {:induction false} RunKeepsInv(s: State, steps: seq<Step>)
    requires Inv(s) && IsRun(s, steps)
    ensures Inv(RunFrom(s, steps))
    decreases |steps|
  {
    if |steps| > 0 {
      StepKeepsInv(s, steps[0]);
      RunKeepsInv(Next(s, steps[0]), steps[1..]);
    }
  }

  // ----- what holds in every reachable state -----

  /** In every reachable state, what is in the files, then what the writer still has to write, then
      what producers have appended, then the record being appended, is the log: all records in the
      order in which their producers locked rmtx.  So the files always hold a prefix of the log. */
  lemma FilesArePrefixOfLog(s: State, steps: seq<Step>)
    requires Initial(s) && IsRun(s, steps)
    ensures var t := RunFrom(s, steps);
            && t.file + Drained(t) + Appended(t) + InFlight(t) == Concat(t.log)
            && t.file <= Concat(t.log)
  {
    InitialInv(s);
    RunKeepsInv(s, steps);
    var t := RunFrom(s, steps);
    assert t.file + (Drained(t) + Appended(t) + InFlight(t)) == Concat(t.log);
  }

  /** When no record is being appended and no drained byte is left, the files and the front buffer
      hold exactly the log. */
  lemma QuietStateHoldsLog(s: State, steps: seq<Step>)
    requires Initial(s) && IsRun(s, steps)
    requires var t := RunFrom(s, steps); t.rmtx == Nobody && (t.writer.Loop? || t.writer.Sleep?)
    ensures var t := RunFrom(s, steps);
            && t.ridx < |t.bufs| && t.rcur <= |t.bufs[t.ridx]|
            && t.file + t.bufs[t.ridx][..t.rcur] == Concat(t.log)
  {
    FilesArePrefixOfLog(s, steps);
    InitialInv(s);
    RunKeepsInv(s, steps);
    var t := RunFrom(s, steps);
    assert t.file + "" + t.bufs[t.ridx][..t.rcur] + "" == t.file + t.bufs[t.ridx][..t.rcur];
  }

  /** The writer never drains the buffer that a producer fills. */
  lemma WriterAndProducerUseDifferentBuffers(s: State, steps: seq<Step>, i: nat)
    requires Initial(s) && IsRun(s, steps)
    requires i < |RunFrom(s, steps).producers| && RunFrom(s, steps).producers[i].Copy?
    ensures var t := RunFrom(s, steps);
            && t.ridx != t.widx && t.producers[i].buf == t.ridx
            && (t.writer.Swapped() ==> t.idx != t.producers[i].buf)
  {
    InitialInv(s);
    RunKeepsInv(s, steps);
    var t := RunFrom(s, steps);
    assert CopyIsExact(t, t.producers[i]);
    CopyExcludesSwap(t, i);
  }

  /** A put stays inside the buffer exactly when its record is no longer than the buffer. */
  lemma PutStaysInside(s: State, steps: seq<Step>, i: nat)
    requires Initial(s) && IsRun(s, steps)
    requires i < |RunFrom(s, steps).producers| && RunFrom(s, steps).producers[i].Copy?
    ensures var t := RunFrom(s, steps);
            var len := |t.producers[i].rec|;
            && (t.rcur + len <= t.cap <==> len <= s.cap)
            && (len <= s.cap ==> ProducerEnabled(t, i))
  {
    InitialInv(s);
    RunKeepsInv(s, steps);
    CapacityStays(s, steps);
    var t := RunFrom(s, steps);
    assert CopyIsExact(t, t.producers[i]);
  }

  ghost predicate Leads(s: State, steps: seq<Step>, t: State) {
    IsRun(s, steps) && RunFrom(s, steps) == t
  }

  lemma {:induction false} LeadsOn(s: State, steps: seq<Step>, t: State, step: Step)
    requires Leads(s, steps, t) && Enabled(t, step)
    ensures Leads(s, steps + [step], Next(t, step))
    decreases |steps|
  {
    var more := steps + [step];
    if |steps| == 0 {
      assert more == [step] && Leads(Next(s, step), [], Next(s, step));
      assert more[1..] == [];
    } else {
      LeadsOn(Next(s, steps[0]), steps[1..], t, step);
      assert more[1..] == steps[1..] + [step];
    }
  }

  /** One more step of producer `i`. */
  lemma Produce(s: State, steps: seq<Step>, t: State, i: nat, rec: string)
    returns (more: seq<Step>, u: State)
    requires Leads(s, steps, t) && ProducerEnabled(t, i)
    ensures Leads(s, more, u) && u == ProducerNext(t, i, rec)
  {
    LeadsOn(s, steps, t, ByProducer(i, rec));
    more, u := steps + [ByProducer(i, rec)], ProducerNext(t, i, rec);
  }

  /** One more step of the writer. */
  lemma Drain(s: State, steps: seq<Step>, t: State)
    returns (more: seq<Step>, u: State)
    requires Leads(s, steps, t) && WriterEnabled(t, 1)
    ensures Leads(s, more, u) && u == WriterNext(t, false, false, 1)
  {
    LeadsOn(s, steps, t, ByWriter(false, false, 1));
    more, u := steps + [ByWriter(false, false, 1)], WriterNext(t, false, false, 1);
  }

  /** A producer with a record that does not fit asks for a swap. */
  lemma AskForSwap(s: State, i: nat, rec: string) returns (steps: seq<Step>, t: State)
    requires Initial(s) && i < |s.producers| && |rec| >= s.cap
    ensures Leads(s, steps, t)
    ensures t == s.(producers := s.producers[i := Spin(rec)], rmtx := Producing(i), log := [rec], sflag := false)
  {
    steps, t := [], s;
    for k := 0 to 6
      invariant Leads(s, steps, t)
      invariant t == AskingState(s, i, rec, k)
    {
      steps, t := Produce(s, steps, t, i, rec);
    }
  }

  function AskingState(s: State, i: nat, rec: string, k: nat): State
    requires i < |s.producers|
  {
    var p := s.producers;
    var held := s.(rmtx := Producing(i), log := [rec]);
    match k
    case 0 => s
    case 1 => s.(producers := p[i := Lock(rec)])
    case 2 => held.(producers := p[i := Check(rec)])
    case 3 => held.(producers := p[i := LockSwap(rec)])
    case 4 => held.(producers := p[i := Request(rec)], smtx := Producing(i))
    case 5 => held.(producers := p[i := UnlockSwap(rec)], smtx := Producing(i), sflag := false)
    case _ => held.(producers := p[i := Spin(rec)], sflag := false)
  }

  /** The writer swaps on the request. */
  lemma SwapOnRequest(s: State, first: seq<Step>, a: State) returns (steps: seq<Step>, t: State)
    requires Leads(s, first, a)
    requires a.writer == Loop && a.smtx == Nobody && !a.sflag && a.ridx == 0 && a.widx == 1 && a.rcur == 0
    ensures Leads(s, steps, t)
    ensures t.sflag && t.rcur == 0 && t.ridx == 1
    ensures t.producers == a.producers && t.bufs == a.bufs && t.cap == a.cap
  {
    steps, t := Drain(s, first, a);
    steps, t := Drain(s, steps, t);
    for k := 0 to 8
      invariant Leads(s, steps, t)
      invariant t.writer == if k < 8 then Swap(k, true) else UnlockS(true)
      invariant t.producers == a.producers && t.bufs == a.bufs && t.cap == a.cap
      invariant t.rcur == 0 && t.ridx == (if k == 0 then 0 else 1) && (k >= 5 ==> t.sflag)
    {
      steps, t := Drain(s, steps, t);
    }
  }

  /** A record longer than the buffer does pass its end, whatever the initial state: its producer
      comes to copy it, fills the buffer, and its next byte belongs behind the end. */
  lemma LongRecordPassesEnd(s: State, i: nat, rec: string) returns (steps: seq<Step>)
    requires Initial(s) && i < |s.producers| && |rec| > s.cap
    ensures IsRun(s, steps)
    ensures var t := RunFrom(s, steps);
            && i < |t.producers| && t.producers[i] == Copy(rec, t.ridx, t.cap)
            && t.cap == s.cap && t.rcur + |rec| > t.cap
            && !ProducerEnabled(t, i)
  {
    var t;
    steps, t := AskForSwap(s, i, rec);
    steps, t := SwapOnRequest(s, steps, t);
    steps, t := Produce(s, steps, t, i, rec);
    for k := 0 to s.cap
      invariant Leads(s, steps, t)
      invariant i < |t.producers| && t.producers[i] == Copy(rec, 1, k)
      invariant t.ridx == 1 && t.rcur == 0 && t.cap == s.cap
      invariant |t.bufs| == 2 && |t.bufs[1]| == s.cap
    {
      steps, t := Produce(s, steps, t, i, rec);
    }
  }

  lemma {:induction false} CapacityStays(s: State, steps: seq<Step>)
    requires IsRun(s, steps)
    ensures RunFrom(s, steps).cap == s.cap
    decreases |steps|
  {
    if |steps| > 0 {
      CapacityStaysOnce(s, steps[0]);
      CapacityStays(Next(s, steps[0]), steps[1..]);
    }
  }

  lemma CapacityStaysOnce(s: State, step: Step)
    requires Enabled(s, step)
    ensures Next(s, step).cap == s.cap
  {
  }

  /** While the flag is lowered, exactly one producer waits, it holds rmtx, and it leaves its wait
      only after a swap has emptied the front buffer. */
  lemma LoweredFlagHasWaiter(s: State, steps: seq<Step>, i: nat)
    requires Initial(s) && IsRun(s, steps)
    requires i < |RunFrom(s, steps).producers|
    ensures var t := RunFrom(s, steps);
            && (!t.sflag ==> (t.producers[i].UnlockSwap? || t.producers[i].Spin?
                              <==> t.rmtx == Producing(i)))
            && (!t.sflag ==> t.rmtx.Producing? && t.rmtx.id < |t.producers|)
            && (t.producers[i].Spin? && t.sflag ==> t.rcur == 0)
  {
    InitialInv(s);
    RunKeepsInv(s, steps);
  }

  // ----- a requested swap comes -----

  /** Writer steps left until the flag is raised. */
  function Rank(s: State): nat {
    match s.writer
    case Write(d) => 14 + (if d < s.cur then s.cur - d else 0)
    case Loop => 13
    case Sleep => 13
    case Pred(_) => 12
    case Swap(at, _) => if at < 11 then 11 - at else 0
    case _ => 0
  }

  ghost predicate Requested(s: State, i: nat) {
    Inv(s) && i < |s.producers| && s.producers[i].Spin? && !s.sflag
  }

  /** A waiting producer cannot block the writer. */
  lemma WriterIsNotBlocked(s: State, i: nat)
    requires Requested(s, i)
    ensures WriterEnabled(s, 1)
  {
    assert s.rmtx == Producing(i);
    assert forall j :: 0 <= j < |s.producers| && s.producers[j].HoldsS() ==> s.producers[j].HoldsR();
  }

  lemma WriterStepLowersRank(s: State, i: nat, timedOut: bool, lucky: bool, n: nat)
    requires Requested(s, i) && WriterEnabled(s, n)
    ensures var t := WriterNext(s, timedOut, lucky, n);
            t.sflag || (Rank(t) < Rank(s) && t.producers == s.producers)
  {
    assert s.rmtx == Producing(i);
  }

  lemma ProducerStepKeepsRequest(s: State, i: nat, j: nat, rec: string)
    requires Requested(s, i) && ProducerEnabled(s, j)
    ensures var t := ProducerNext(s, j, rec);
            !t.sflag && t.writer == s.writer && t.cur == s.cur
            && |t.producers| == |s.producers| && t.producers[i] == s.producers[i]
  {
    assert s.rmtx == Producing(i);
    if j != i {
      assert !s.producers[j].HoldsR();
    }
  }

  function WriterSteps(steps: seq<Step>): nat {
    if |steps| == 0 then 0 else (if steps[0].ByWriter? then 1 else 0) + WriterSteps(steps[1..])
  }

  predicate FlagRaisedWithin(s: State, steps: seq<Step>)
    requires IsRun(s, steps)
    decreases |steps|
  {
    s.sflag || (|steps| > 0 && FlagRaisedWithin(Next(s, steps[0]), steps[1..]))
  }

  /** From any state in which a producer waits, any continuation in which the writer moves at least
      `Rank` times contains the swap, whatever the other producers do in between. */
  lemma {:induction false} SwapComes(s: State, i: nat, steps: seq<Step>)
    requires Requested(s, i) && IsRun(s, steps)
    requires WriterSteps(steps) >= Rank(s)
    ensures FlagRaisedWithin(s, steps)
    decreases |steps|
  {
    PositiveRank(s, i);
    var t := Next(s, steps[0]);
    StepKeepsInv(s, steps[0]);
    match steps[0]
    case ByProducer(j, rec) =>
      ProducerStepKeepsRequest(s, i, j, rec);
      SwapComes(t, i, steps[1..]);
    case ByWriter(timedOut, lucky, n) =>
      WriterStepLowersRank(s, i, timedOut, lucky, n);
      if !t.sflag {
        SwapComes(t, i, steps[1..]);
      }
  }

  lemma PositiveRank(s: State, i: nat)
    requires Requested(s, i)
    ensures Rank(s) > 0
  {
    assert s.rmtx == Producing(i);
  }
}
