/** When the pool reuses slots: exactly when a slot up to and including `_reusableIndex` is reusable,
    whatever is reusable behind it. */
module PoolReuse {
  import opened Pools

  // ----- reuse comes, or never does -----

  /** A slot up to and including the index is reusable. */
  predicate Promising(s: Sweep, reusable: set<Bundle>) {
    exists k :: 0 <= k < |s.slots| && k <= s.index && IsReusable(s.slots[k], reusable)
  }

  /** Some `emplace` of these bundles overwrites a slot. */
  predicate Reuses(s: Sweep, bundles: seq<Bundle>, reusable: set<Bundle>)
    requires s.Valid()
    decreases |bundles|
  {
    |bundles| > 0 &&
    var seen := [reusable, reusable];
    (Overwrites(AfterGc(s, seen), reusable)
     || Reuses(Emplaced(s, bundles[0], seen, reusable), bundles[1..], reusable))
  }

  ghost predicate Hopeful(s: Sweep, reusable: set<Bundle>) {
    s.Valid() && WindowReusable(s, reusable) && Promising(s, reusable)
  }

  /** The window is closed, and a slot that it has still to pass is reusable. */
  predicate Ahead(s: Sweep, reusable: set<Bundle>)
    requires s.Valid()
  {
    exists k :: s.left <= k < s.index && IsReusable(s.slots[k], reusable)
  }

  /** How many steps the sweep needs at most until the slot at the index is reusable. */
  function Due(s: Sweep, reusable: set<Bundle>): nat
    requires s.Valid()
  {
    if s.left <= s.right then s.index - s.right
    else if Ahead(s, reusable) then s.index - s.left + 1
    else s.index - s.left + s.index + 1
  }

  lemma StepStaysReady(s: Sweep, reusable: set<Bundle>)
    requires Hopeful(s, reusable) && s.index > 0 && Overwrites(s, reusable)
    ensures Hopeful(SweepStep(s, reusable), reusable) && Overwrites(SweepStep(s, reusable), reusable)
  {
    var t := SweepStep(s, reusable);
    assert Overwrites(t, reusable);
    assert IsReusable(t.slots[t.index], reusable);
  }

  /** A step with an open window: it grows, moves, or is merged. */
  lemma OpenStepComesNearer(s: Sweep, reusable: set<Bundle>)
    requires Hopeful(s, reusable) && s.index > 0 && s.left <= s.right
    ensures var t := SweepStep(s, reusable);
            && Hopeful(t, reusable)
            && (Overwrites(t, reusable) || (t.index == s.index && Due(t, reusable) < Due(s, reusable)))
  {
    var t := SweepStep(s, reusable);
    var k := if s.right + 1 == s.index then t.index else t.left;
    assert IsReusable(t.slots[k], reusable);
  }

  /** A step with a closed window: it opens, passes a live slot, or starts again. */
  lemma ClosedStepComesNearer(s: Sweep, reusable: set<Bundle>)
    requires Hopeful(s, reusable) && s.index > 0 && s.left > s.right && !Overwrites(s, reusable)
    ensures var t := SweepStep(s, reusable);
            && Hopeful(t, reusable)
            && t.index == s.index && Due(t, reusable) < Due(s, reusable)
  {
    var t := SweepStep(s, reusable);
    var k :| 0 <= k < |s.slots| && k <= s.index && IsReusable(s.slots[k], reusable);
    assert k < s.index && IsReusable(t.slots[k], reusable);
    if t.left > t.right && Ahead(s, reusable) {
      var j :| s.left <= j < s.index && IsReusable(s.slots[j], reusable);
      assert t.left <= j && IsReusable(t.slots[j], reusable);
    }
  }

  lemma {:induction false} StepsComeNearer(s: Sweep, reusable: set<Bundle>, n: nat)
    requires Hopeful(s, reusable)
    ensures var t := SweepSteps(s, reusable, n);
            && Hopeful(t, reusable) && |t.slots| == |s.slots|
            && (Overwrites(t, reusable) || (t.index == s.index && Due(t, reusable) + n <= Due(s, reusable)))
    ensures Overwrites(s, reusable) ==> Overwrites(SweepSteps(s, reusable, n), reusable)
    decreases n
  {
    if n > 0 && s.index > 0 {
      if Overwrites(s, reusable) {
        StepStaysReady(s, reusable);
      } else if s.left <= s.right {
        OpenStepComesNearer(s, reusable);
      } else {
        ClosedStepComesNearer(s, reusable);
      }
      StepsComeNearer(SweepStep(s, reusable), reusable, n - 1);
    }
  }

  /** An append puts a live slot at the end. */
  lemma AppendKeepsDue(s: Sweep, b: Bundle, reusable: set<Bundle>)
    requires Hopeful(s, reusable) && !Overwrites(s, reusable) && b !in reusable
    ensures var t := Inserted(s, b, reusable);
            && Hopeful(t, reusable) && t.index == s.index && |t.slots| > |s.slots|
            && Due(t, reusable) == Due(s, reusable)
  {
    var t := Inserted(s, b, reusable);
    assert forall k :: 0 <= k < |s.slots| ==> t.slots[k] == s.slots[k];
    var k :| 0 <= k < |s.slots| && k <= s.index && IsReusable(s.slots[k], reusable);
    assert IsReusable(t.slots[k], reusable);
    assert Ahead(t, reusable) <==> Ahead(s, reusable) by {
      assert forall j :: s.left <= j < s.index ==> t.slots[j] == s.slots[j];
    }
  }

  lemma {:induction false} ReuseComes(s: Sweep, bundles: seq<Bundle>, reusable: set<Bundle>)
    requires Hopeful(s, reusable) && |s.slots| > GC_THRESHOLD
    requires forall b :: b in bundles ==> b !in reusable
    requires |bundles| > 0 && STEP * |bundles| >= Due(s, reusable)
    ensures Reuses(s, bundles, reusable)
    decreases |bundles|
  {
    var seen := [reusable, reusable];
    SweepUnderOneView(s, seen, reusable);
    StepsComeNearer(s, reusable, STEP);
    var g := AfterGc(s, seen);
    if !Overwrites(g, reusable) {
      AppendKeepsDue(g, bundles[0], reusable);
      ReuseComes(Emplaced(s, bundles[0], seen, reusable), bundles[1..], reusable);
    }
  }

  /** Without a promising slot the window stays closed, and nothing changes below the index. */
  lemma {:induction false} HopelessSteps(s: Sweep, reusable: set<Bundle>, n: nat)
    requires s.Valid() && s.left > s.right && !Promising(s, reusable)
    ensures var t := SweepSteps(s, reusable, n);
            t.slots == s.slots && t.index == s.index && t.left > t.right
    decreases n
  {
    if n > 0 && s.index > 0 {
      assert !IsReusable(s.slots[s.left], reusable);
      HopelessSteps(SweepStep(s, reusable), reusable, n - 1);
    }
  }

  lemma {:induction false} ReuseNeverComes(s: Sweep, bundles: seq<Bundle>, reusable: set<Bundle>)
    requires s.Valid() && s.left > s.right && !Promising(s, reusable)
    requires forall b :: b in bundles ==> b !in reusable
    ensures !Reuses(s, bundles, reusable)
    decreases |bundles|
  {
    if |bundles| > 0 {
      var seen := [reusable, reusable];
      SweepUnderOneView(s, seen, reusable);
      HopelessSteps(s, reusable, STEP);
      var t := Emplaced(s, bundles[0], seen, reusable);
      assert !Overwrites(AfterGc(s, seen), reusable);
      assert t.slots == s.slots + [Owns(bundles[0])];
      ReuseNeverComes(t, bundles[1..], reusable);
    }
  }

  /** While nothing changes what is reusable, one of the next `index + 1` connections takes over a
      slot if and only if a slot up to and including the index is reusable now; if none is, no later
      connection does either. */
  lemma ReuseComesExactly(s: Sweep, bundles: seq<Bundle>, reusable: set<Bundle>)
    requires s.Valid() && WindowReusable(s, reusable) && |s.slots| > GC_THRESHOLD
    requires forall b :: b in bundles ==> b !in reusable
    ensures |bundles| > s.index ==> (Reuses(s, bundles, reusable) <==> Promising(s, reusable))
    ensures !Promising(s, reusable) ==> !Reuses(s, bundles, reusable)
  {
    if s.left <= s.right {
      OpenIsPromising(s, reusable);
    }
    if !Promising(s, reusable) {
      ReuseNeverComes(s, bundles, reusable);
    } else if |bundles| > s.index {
      ReuseComes(s, bundles, reusable);
    }
  }

  lemma OpenIsPromising(s: Sweep, reusable: set<Bundle>)
    requires s.Valid() && WindowReusable(s, reusable) && s.left <= s.right
    ensures Promising(s, reusable)
  {
    assert IsReusable(s.slots[s.left], reusable);
  }

  // ----- how many slots are reused -----

  /** A call of `emplace`, with what its sweep steps and its last test observe. */
  datatype Call = Call(bundle: Bundle, seen: seq<set<Bundle>>, reusable: set<Bundle>) {
    ghost predicate Observes(view: set<Bundle>) {
      view == reusable || view in seen
    }
  }

  function EmplaceAll(s: Sweep, calls: seq<Call>): (t: Sweep)
    requires s.Valid()
    ensures t.Valid()
    decreases |calls|
  {
    if |calls| == 0 then s
    else EmplaceAll(Emplaced(s, calls[0].bundle, calls[0].seen, calls[0].reusable), calls[1..])
  }

  /** Every view of the call sees these slots live. */
  ghost predicate SeesLive(call: Call, slots: seq<Slot>) {
    forall view, k :: call.Observes(view) && 0 <= k < |slots| ==> !IsReusable(slots[k], view)
  }

  /** The slots that the first `j` calls have filled. */
  function Filled(calls: seq<Call>, j: nat): (slots: seq<Slot>)
    requires j <= |calls|
    ensures |slots| == j && forall i :: 0 <= i < j ==> slots[i] == Owns(calls[i].bundle)
  {
    seq(j, i requires 0 <= i < j => Owns(calls[i].bundle))
  }

  /** The window is closed, the slots below the index and those that the calls fill stay live, and the
      slots from the index on are reusable, one for each call when it comes. */
  ghost predicate Streak(s: Sweep, calls: seq<Call>) {
    && s.Valid() && s.left > s.right && s.index + |calls| <= |s.slots|
    && forall j :: 0 <= j < |calls| ==>
         && SeesLive(calls[j], s.slots[..s.index] + Filled(calls, j))
         && IsReusable(s.slots[s.index + j], calls[j].reusable)
  }

  /** A closed window over live slots stays closed. */
  lemma {:induction false} LiveSweep(s: Sweep, seen: seq<set<Bundle>>)
    requires s.Valid() && s.left > s.right
    requires forall view, k :: view in seen && 0 <= k < s.index ==> !IsReusable(s.slots[k], view)
    ensures var t := SweepUnder(s, seen); t.slots == s.slots && t.index == s.index && t.left > t.right
    decreases |seen|
  {
    if |seen| > 0 && s.index > 0 {
      var rest := seen[1..];
      assert seen[0] in seen && forall view :: view in rest ==> view in seen;
      assert !IsReusable(s.slots[s.left], seen[0]);
      LiveSweep(SweepStep(s, seen[0]), rest);
    }
  }

  lemma EmplacedInStreak(s: Sweep, calls: seq<Call>)
    requires Streak(s, calls) && |calls| > 0
    ensures var c := calls[0]; var t := Emplaced(s, c.bundle, c.seen, c.reusable);
            t.slots == s.slots[s.index := Owns(c.bundle)] && t.index == s.index + 1 && t.left > t.right
  {
    var c := calls[0];
    var front := s.slots[..s.index] + Filled(calls, 0);
    assert SeesLive(c, front);
    forall view, k | view in c.seen && 0 <= k < s.index ensures !IsReusable(s.slots[k], view) {
      assert c.Observes(view) && front[k] == s.slots[k];
    }
    LiveSweep(s, c.seen);
    assert IsReusable(s.slots[s.index + 0], c.reusable);
  }

  /** What the later calls see is what they saw before, one slot further. */
  lemma StreakGoesOn(s: Sweep, calls: seq<Call>, t: Sweep)
    requires Streak(s, calls) && |calls| > 0
    requires t.Valid() && t.left > t.right && t.index == s.index + 1
    requires t.slots == s.slots[s.index := Owns(calls[0].bundle)]
    ensures Streak(t, calls[1..])
  {
    var rest := calls[1..];
    forall j | 0 <= j < |rest|
      ensures SeesLive(rest[j], t.slots[..t.index] + Filled(rest, j))
      ensures IsReusable(t.slots[t.index + j], rest[j].reusable)
    {
      assert rest[j] == calls[j + 1];
      FilledFurther(s.slots, s.index, calls, j);
      assert IsReusable(s.slots[s.index + (j + 1)], calls[j + 1].reusable);
    }
  }

  lemma FilledFurther(slots: seq<Slot>, index: nat, calls: seq<Call>, j: nat)
    requires index < |slots| && j < |calls|
    ensures slots[index := Owns(calls[0].bundle)][..index + 1] + Filled(calls[1..], j)
         == slots[..index] + Filled(calls, j + 1)
  {
    FilledSplits(calls, j);
    PlaceBehind(slots, index, Owns(calls[0].bundle), Filled(calls[1..], j));
  }

  lemma FilledSplits(calls: seq<Call>, j: nat)
    requires j < |calls|
    ensures Filled(calls, j + 1) == [Owns(calls[0].bundle)] + Filled(calls[1..], j)
  {
  }

  lemma PlaceBehind(slots: seq<Slot>, index: nat, slot: Slot, rest: seq<Slot>)
    requires index < |slots|
    ensures slots[index := slot][..index + 1] + rest == slots[..index] + ([slot] + rest)
  {
    assert slots[index := slot][..index + 1] == slots[..index] + [slot];
  }

  lemma TailSpared(slots: seq<Slot>, index: nat, slot: Slot, n: nat)
    requires 0 < n <= |slots| - index
    ensures slots[index := slot][index + n..] == slots[index + n..]
  {
  }

  /** A run of connections takes over a run of reusable slots: each overwrites the next of them, none
      appends, every other slot stays, and the index ends behind them. */
  lemma {:induction false} StreakIsReused(s: Sweep, calls: seq<Call>)
    requires Streak(s, calls)
    ensures var t := EmplaceAll(s, calls);
            && t.slots == s.slots[..s.index] + Filled(calls, |calls|) + s.slots[s.index + |calls|..]
            && |t.slots| == |s.slots| && t.index == s.index + |calls|
    decreases |calls|
  {
    if |calls| > 0 {
      var c, n := calls[0], |calls|;
      var t := Emplaced(s, c.bundle, c.seen, c.reusable);
      EmplacedInStreak(s, calls);
      StreakGoesOn(s, calls, t);
      StreakIsReused(t, calls[1..]);
      FilledFurther(s.slots, s.index, calls, n - 1);
      TailSpared(s.slots, s.index, Owns(c.bundle), n);
      assert t.index + (n - 1) == s.index + n;
    } else {
      assert s.slots == s.slots[..s.index] + [] + s.slots[s.index..];
    }
  }

  // ----- a blocked collector -----

  /** The window is closed, and every slot up to and including the index is live. */
  ghost predicate Blocked(s: Sweep, reusable: set<Bundle>) {
    && s.Valid() && s.left == s.right + 1 && s.index < |s.slots|
    && forall k :: 0 <= k <= s.index ==> !IsReusable(s.slots[k], reusable)
  }

  /** No observation makes one of these slots reusable. */
  ghost predicate StayLive(slots: seq<Slot>, ops: seq<Op>) {
    forall i, k :: 0 <= i < |ops| && ops[i].Observe? && 0 <= k < |slots| ==>
      !IsReusable(slots[k], ops[i].reusable)
  }

  function Inserts(ops: seq<Op>): nat {
    if |ops| == 0 then 0 else (if ops[0].Insert? then 1 else 0) + Inserts(ops[1..])
  }

  lemma BlockedStep(p: Pool, op: Op)
    requires Blocked(p.sweep, p.reusable) && Legal(p, op)
    requires StayLive(p.sweep.slots[..p.sweep.index + 1], [op])
    ensures var q := Apply(p, op);
            && Blocked(q.sweep, q.reusable) && q.sweep.index == p.sweep.index && q.freed == p.freed
            && q.sweep.slots == p.sweep.slots + (if op.Insert? then [Owns(op.b)] else [])
  {
    if op.Observe? {
      assert [op][0] == op;
      forall k | 0 <= k <= p.sweep.index ensures !IsReusable(p.sweep.slots[k], op.reusable) {
        assert p.sweep.slots[..p.sweep.index + 1][k] == p.sweep.slots[k];
      }
    }
  }

  /** As long as the slots up to the index stay live, a blocked collector frees nothing and every
      insert appends, whatever is reusable behind the index. */
  lemma {:induction false} BlockedPoolOnlyGrows(p: Pool, ops: seq<Op>)
    requires Blocked(p.sweep, p.reusable) && IsRun(p, ops)
    requires StayLive(p.sweep.slots[..p.sweep.index + 1], ops)
    ensures var q := RunFrom(p, ops);
            && Blocked(q.sweep, q.reusable) && q.sweep.index == p.sweep.index
            && |q.sweep.slots| == |p.sweep.slots| + Inserts(ops) && q.freed == p.freed
    decreases |ops|
  {
    if |ops| > 0 {
      var front := p.sweep.slots[..p.sweep.index + 1];
      assert forall i :: 0 <= i < |ops| - 1 ==> ops[1..][i] == ops[i + 1];
      BlockedStep(p, ops[0]);
      var q := Apply(p, ops[0]);
      assert q.sweep.slots[..q.sweep.index + 1] == front;
      BlockedPoolOnlyGrows(q, ops[1..]);
    }
  }

  /** One connection more than there are prefetched slots. */
  const FIRST := PREFETCH + 1

  function Below(k: nat): (bundles: set<Bundle>)
    ensures forall b: Bundle :: b in bundles <==> b < k
  {
    if k == 0 then {} else Below(k - 1) + {k - 1}
  }

  /** The pool after the first `k` connections. */
  function AfterFirst(k: nat): Pool
    requires k <= FIRST
  {
    Pool(Sweep(seq(if k < PREFETCH then PREFETCH else k, i requires 0 <= i => if i < k then Owns(i) else Empty),
               if k < PREFETCH then k else PREFETCH, 0, -1),
         {}, Below(k), {})
  }

  function FirstInserts(k: nat): seq<Op>
    requires k <= FIRST
    decreases FIRST - k
  {
    if k == FIRST then [] else [Insert(k)] + FirstInserts(k + 1)
  }

  lemma NextFirst(k: nat)
    requires k < FIRST
    ensures Legal(AfterFirst(k), Insert(k)) && Apply(AfterFirst(k), Insert(k)) == AfterFirst(k + 1)
  {
  }

  lemma {:induction false} FirstInsertsRun(k: nat)
    requires k <= FIRST
    ensures IsRun(AfterFirst(k), FirstInserts(k))
    ensures RunFrom(AfterFirst(k), FirstInserts(k)) == AfterFirst(FIRST)
    decreases FIRST - k
  {
    if k < FIRST {
      NextFirst(k);
      FirstInsertsRun(k + 1);
    }
  }

  /** Seventeen connections that stay open block the pool: after them nothing is ever freed, and it
      has one slot for each connection there ever was. */
  lemma LongLivedConnectionsBlock(ops: seq<Op>)
    requires IsRun(AfterFirst(FIRST), ops)
    requires forall i, b: Bundle :: 0 <= i < |ops| && ops[i].Observe? && b < FIRST ==> b !in ops[i].reusable
    ensures IsRun(START, FirstInserts(0)) && RunFrom(START, FirstInserts(0)) == AfterFirst(FIRST)
    ensures var q := RunFrom(AfterFirst(FIRST), ops);
            q.freed == {} && |q.sweep.slots| == FIRST + Inserts(ops)
  {
    NoneIsStart();
    FirstInsertsRun(0);
    var p := AfterFirst(FIRST);
    FirstSlots();
    FirstStayLive(ops);
    BlockedPoolOnlyGrows(p, ops);
  }

  lemma NoneIsStart()
    ensures AfterFirst(0) == START
  {
    assert Below(0) == {};
  }

  lemma FirstSlots()
    ensures var s := AfterFirst(FIRST).sweep;
            && |s.slots| == FIRST && s.index == PREFETCH && s.slots[..s.index + 1] == s.slots
            && forall k :: 0 <= k < FIRST ==> s.slots[k] == Owns(k)
  {
  }

  lemma FirstStayLive(ops: seq<Op>)
    requires forall i, b: Bundle :: 0 <= i < |ops| && ops[i].Observe? && b < FIRST ==> b !in ops[i].reusable
    ensures StayLive(AfterFirst(FIRST).sweep.slots, ops)
  {
    FirstSlots();
  }
}
