/** The connection pool: `WeakReference` sweeps a window over the slots, at most two steps per
    `Pool::emplace`, and gathers reusable slots behind `_reusableIndex`. */
module Pools {

  /** The address of a bundle: allocations are numbered, and a number is never used again. */
  type Bundle = nat

  /** A slot of `_container`: empty, or owning a bundle. */
  datatype Slot = Empty | Owns(bundle: Bundle)

  const GC_THRESHOLD := 16
  const PREFETCH := 16
  const STEP := 2

  /** `Pool::isReusable(index)`: the slot is empty, or its bundle is disconnected and has no strong
      guard.  The bundles of which that is observed are the set `reusable`. */
  predicate IsReusable(slot: Slot, reusable: set<Bundle>) {
    slot.Empty? || slot.bundle in reusable
  }

  datatype Sweep = Sweep(slots: seq<Slot>, index: int, left: int, right: int) {
    /** The window lies below the index, and a closed window lies at a slot to be looked at. */
    predicate Valid() {
      && 0 <= left <= right + 1 <= index <= |slots|
      && (left == right + 1 ==> left < index || left == 0)
    }
  }

  // ----- one step of the sweep -----

  /** `WeakReference::doUpdate`: opens, moves, resets or merges the window. */
  function SweepStep(s: Sweep, reusable: set<Bundle>): (t: Sweep)
    requires s.Valid() && s.index > 0
    ensures t.Valid()
  {
    if s.left > s.right then
      if IsReusable(s.slots[s.left], reusable) then s.(right := s.right + 1)
      else if s.left + 1 == s.index then s.(left := 0, right := -1)
      else s.(left := s.left + 1, right := s.right + 1)
    else if s.right + 1 == s.index then
      s.(index := s.left, left := 0, right := -1)
    else if IsReusable(s.slots[s.right + 1], reusable) then
      s.(right := s.right + 1)
    else
      s.(slots := s.slots[s.right + 1 := s.slots[s.left]][s.left := s.slots[s.right + 1]],
         left := s.left + 1, right := s.right + 1)
  }

  /** `steps` steps, stopping when nothing is left to sweep. */
  function SweepSteps(s: Sweep, reusable: set<Bundle>, steps: nat): (t: Sweep)
    requires s.Valid()
    ensures t.Valid()
    decreases steps
  {
    if steps == 0 || s.index == 0 then s else SweepSteps(SweepStep(s, reusable), reusable, steps - 1)
  }

  // ----- a full sweep is a stable partition -----

  /** The slots that are not reusable, in their order. */
  function Live(slots: seq<Slot>, reusable: set<Bundle>): seq<Slot> {
    if |slots| == 0 then []
    else
      var last := slots[|slots| - 1];
      Live(slots[..|slots| - 1], reusable) + (if IsReusable(last, reusable) then [] else [last])
  }

  predicate AnyReusable(slots: seq<Slot>, reusable: set<Bundle>) {
    exists k :: 0 <= k < |slots| && IsReusable(slots[k], reusable)
  }

  /** After `k` steps of a sweep that started on `s` the first `k` slots are partitioned. */
  ghost predicate Partitioned(s: Sweep, t: Sweep, reusable: set<Bundle>, k: nat) {
    && k <= s.index && s.index <= |s.slots|
    && t.Valid() && t.index == s.index && t.right == k - 1 && |t.slots| == |s.slots|
    && t.slots[..t.left] == Live(s.slots[..k], reusable)
    && (forall j :: t.left <= j < k ==> IsReusable(t.slots[j], reusable))
    && t.slots[k..] == s.slots[k..]
    && multiset(t.slots[..k]) == multiset(s.slots[..k])
    && (t.left == k ==> t.slots == s.slots)
    && (t.left < k <==> AnyReusable(s.slots[..k], reusable))
  }

  lemma PartitionStep(s: Sweep, t: Sweep, reusable: set<Bundle>, k: nat)
    requires Partitioned(s, t, reusable, k) && k < s.index
    requires k + 1 == s.index ==> AnyReusable(s.slots[..s.index], reusable)
    ensures Partitioned(s, SweepStep(t, reusable), reusable, k + 1)
  {
    var u := SweepStep(t, reusable);
    var slot := s.slots[k];
    assert t.slots[k] == slot;
    assert s.slots[..k + 1] == s.slots[..k] + [slot];
    assert s.slots[..k + 1][..k] == s.slots[..k];
    assert AnyReusable(s.slots[..k + 1], reusable)
      <==> AnyReusable(s.slots[..k], reusable) || IsReusable(slot, reusable) by {
      AnyReusableAppend(s.slots[..k], slot, reusable);
    }
    PartitionContents(s, t, reusable, k);
  }

  lemma AnyReusableAppend(slots: seq<Slot>, slot: Slot, reusable: set<Bundle>)
    ensures AnyReusable(slots + [slot], reusable) <==> AnyReusable(slots, reusable) || IsReusable(slot, reusable)
  {
    if AnyReusable(slots, reusable) {
      var k :| 0 <= k < |slots| && IsReusable(slots[k], reusable);
      assert (slots + [slot])[k] == slots[k];
    }
    if IsReusable(slot, reusable) {
      assert (slots + [slot])[|slots|] == slot;
    }
  }

  lemma PartitionContents(s: Sweep, t: Sweep, reusable: set<Bundle>, k: nat)
    requires Partitioned(s, t, reusable, k) && k < s.index
    ensures var u := SweepStep(t, reusable);
            && u.slots[k + 1..] == s.slots[k + 1..]
            && multiset(u.slots[..k + 1]) == multiset(s.slots[..k + 1])
  {
    var u := SweepStep(t, reusable);
    assert t.slots[k + 1..] == t.slots[k..][1..];
    assert s.slots[k + 1..] == s.slots[k..][1..];
    assert t.slots[k] == t.slots[k..][0] == s.slots[k..][0];
    assert t.slots[..k + 1] == t.slots[..k] + [t.slots[k]];
    assert s.slots[..k + 1] == s.slots[..k] + [s.slots[k]];
    if t.left < k && !IsReusable(t.slots[k], reusable) {
      SwapKeepsMultiset(t.slots, k, t.left);
    }
  }

  lemma SwapKeepsMultiset(slots: seq<Slot>, i: nat, j: nat)
    requires j < i < |slots|
    ensures var u := slots[i := slots[j]][j := slots[i]];
            multiset(u[..i + 1]) == multiset(slots[..i + 1])
  {
    var u := slots[i := slots[j]][j := slots[i]];
    var a, m := slots[..j], slots[j + 1..i];
    assert slots[..i + 1] == a + [slots[j]] + m + [slots[i]];
    assert u[..i + 1] == a + [slots[i]] + m + [slots[j]];
  }

  lemma {:induction false} SweepStepsPartition(s: Sweep, reusable: set<Bundle>, k: nat)
    requires s.Valid() && s.left == 0 && s.right == -1
    requires k <= s.index
    requires k == s.index && k > 0 ==> AnyReusable(s.slots[..k], reusable)
    ensures Partitioned(s, SweepSteps(s, reusable, k), reusable, k)
  {
    if k > 0 {
      SweepStepsPartition(s, reusable, k - 1);
      SweepStepsOneMore(s, reusable, k - 1);
      PartitionStep(s, SweepSteps(s, reusable, k - 1), reusable, k - 1);
    }
  }

  lemma {:induction false} SweepStepsOneMore(s: Sweep, reusable: set<Bundle>, k: nat)
    requires s.Valid()
    ensures var t := SweepSteps(s, reusable, k);
            SweepSteps(s, reusable, k + 1) == if t.index == 0 then t else SweepStep(t, reusable)
    decreases k
  {
    if k > 0 && s.index > 0 {
      SweepStepsOneMore(SweepStep(s, reusable), reusable, k - 1);
    }
  }

  /** How many steps a sweep over `s` takes. */
  function SweepLength(s: Sweep, reusable: set<Bundle>): nat
    requires s.Valid()
  {
    if AnyReusable(s.slots[..s.index], reusable) then s.index + 1 else s.index
  }

  /** `t` is `s` after a stable partition of the slots below the index: the live slots come first, in
      their old order, the index is their number, and the reusable slots follow.  No slot is lost or
      doubled, and nothing behind the old index moves. */
  ghost predicate StablePartition(s: Sweep, t: Sweep, reusable: set<Bundle>)
    requires s.Valid()
  {
    && t.left == 0 && t.right == -1
    && |t.slots| == |s.slots| && 0 <= t.index <= s.index
    && t.slots[..t.index] == Live(s.slots[..s.index], reusable)
    && (forall k :: t.index <= k < s.index ==> IsReusable(t.slots[k], reusable))
    && multiset(t.slots[..s.index]) == multiset(s.slots[..s.index])
    && t.slots[s.index..] == s.slots[s.index..]
  }

  /** The last step of a sweep that found a reusable slot. */
  lemma LastStepPartitions(s: Sweep, t: Sweep, reusable: set<Bundle>)
    requires s.Valid() && s.index > 0 && Partitioned(s, t, reusable, s.index)
    requires AnyReusable(s.slots[..s.index], reusable)
    ensures StablePartition(s, SweepStep(t, reusable), reusable)
  {
  }

  /** The last step of a sweep that found none. */
  lemma LastStepKeepsLive(s: Sweep, t: Sweep, reusable: set<Bundle>)
    requires s.Valid() && s.index > 0 && Partitioned(s, t, reusable, s.index - 1)
    requires !AnyReusable(s.slots[..s.index], reusable) && s.left == 0 && s.right == -1
    ensures SweepStep(t, reusable) == s
  {
    var all, front := s.slots[..s.index], s.slots[..s.index - 1];
    assert forall k :: 0 <= k < s.index ==> all[k] == s.slots[k];
    assert forall k :: 0 <= k < s.index - 1 ==> front[k] == all[k];
    assert !IsReusable(all[s.index - 1], reusable);
  }

  /** A full sweep is a stable partition; without reusable slots nothing changes. */
  lemma FullSweepPartitions(s: Sweep, reusable: set<Bundle>)
    requires s.Valid() && s.left == 0 && s.right == -1 && s.index > 0
    ensures var t := SweepSteps(s, reusable, SweepLength(s, reusable));
            && StablePartition(s, t, reusable)
            && (!AnyReusable(s.slots[..s.index], reusable) ==> t == s)
  {
    var n := s.index;
    if AnyReusable(s.slots[..n], reusable) {
      SweepStepsPartition(s, reusable, n);
      SweepStepsOneMore(s, reusable, n);
      LastStepPartitions(s, SweepSteps(s, reusable, n), reusable);
    } else {
      SweepStepsPartition(s, reusable, n - 1);
      SweepStepsOneMore(s, reusable, n - 1);
      LastStepKeepsLive(s, SweepSteps(s, reusable, n - 1), reusable);
      NoneReusableLive(s.slots[..n], reusable);
      NoneReusable(s.slots[..n], reusable);
    }
  }

  lemma NoneReusable(slots: seq<Slot>, reusable: set<Bundle>)
    requires !AnyReusable(slots, reusable)
    ensures forall k :: 0 <= k < |slots| ==> !IsReusable(slots[k], reusable)
  {
  }

  lemma {:induction false} NoneReusableLive(slots: seq<Slot>, reusable: set<Bundle>)
    requires !AnyReusable(slots, reusable)
    ensures Live(slots, reusable) == slots
  {
    if |slots| > 0 {
      var front := slots[..|slots| - 1];
      assert forall k :: 0 <= k < |front| ==> front[k] == slots[k];
      NoneReusableLive(front, reusable);
      assert !IsReusable(slots[|slots| - 1], reusable);
    }
  }

  /** It does not finish earlier: until then the index stays and the window is not back at the
      start. */
  lemma FullSweepIsExact(s: Sweep, reusable: set<Bundle>, k: nat)
    requires s.Valid() && s.left == 0 && s.right == -1
    requires 0 < k < SweepLength(s, reusable)
    ensures var t := SweepSteps(s, reusable, k);
            t.index == s.index && (t.left, t.right) != (0, -1)
  {
    SweepStepsPartition(s, reusable, k);
  }

  // ----- sweeps interleaved with inserts and disconnects -----

  /** Steps that each observe a set of their own: other threads drop guards at any time. */
  function SweepUnder(s: Sweep, seen: seq<set<Bundle>>): (t: Sweep)
    requires s.Valid()
    ensures t.Valid()
    decreases |seen|
  {
    if |seen| == 0 || s.index == 0 then s else SweepUnder(SweepStep(s, seen[0]), seen[1..])
  }

  /** If nothing changes in between, these are the steps of a full sweep. */
  lemma {:induction false} SweepUnderOneView(s: Sweep, seen: seq<set<Bundle>>, reusable: set<Bundle>)
    requires s.Valid() && forall i :: 0 <= i < |seen| ==> seen[i] == reusable
    ensures SweepUnder(s, seen) == SweepSteps(s, reusable, |seen|)
    decreases |seen|
  {
    if |seen| > 0 && s.index > 0 {
      SweepUnderOneView(SweepStep(s, reusable), seen[1..], reusable);
    }
  }

  function AfterGc(s: Sweep, seen: seq<set<Bundle>>): (t: Sweep)
    requires s.Valid()
    ensures t.Valid()
  {
    if |s.slots| > GC_THRESHOLD then SweepUnder(s, seen) else s
  }

  predicate Overwrites(s: Sweep, reusable: set<Bundle>)
    requires s.Valid()
  {
    s.index != |s.slots| && IsReusable(s.slots[s.index], reusable)
  }

  /** The slot that an insert overwrites. */
  function Victim(s: Sweep, reusable: set<Bundle>): (v: Slot)
    requires s.Valid()
    ensures IsReusable(v, reusable)
  {
    if Overwrites(s, reusable) then s.slots[s.index] else Empty
  }

  /** The insert itself: overwrites the slot at the index, or appends. */
  function Inserted(s: Sweep, b: Bundle, reusable: set<Bundle>): (t: Sweep)
    requires s.Valid()
    ensures t.Valid()
  {
    if Overwrites(s, reusable) then s.(slots := s.slots[s.index := Owns(b)], index := s.index + 1)
    else s.(slots := s.slots + [Owns(b)])
  }

  /** `Pool::emplace` of a new bundle: sweeps, each step with its own view, and inserts. */
  function Emplaced(s: Sweep, b: Bundle, seen: seq<set<Bundle>>, reusable: set<Bundle>): (t: Sweep)
    requires s.Valid()
    ensures t.Valid()
  {
    Inserted(AfterGc(s, seen), b, reusable)
  }

  /** The pool, and what is known of all bundles it handed out. */
  datatype Pool = Pool(sweep: Sweep, reusable: set<Bundle>, handed: set<Bundle>, freed: set<Bundle>)

  datatype Op =
    | SweepOnce                          // one doUpdate
    | Insert(b: Bundle)                  // the last test of emplace, with its overwrite or append
    | Observe(reusable: set<Bundle>)     // connections close, guards come and go

  predicate Legal(p: Pool, op: Op) {
    match op
    case SweepOnce => p.sweep.index > 0
    case Insert(b) => b !in p.handed
    case Observe(_) => true
  }

  function Apply(p: Pool, op: Op): (q: Pool)
    requires p.sweep.Valid() && Legal(p, op)
    ensures q.sweep.Valid()
  {
    match op
    case SweepOnce => p.(sweep := SweepStep(p.sweep, p.reusable))
    case Insert(b) =>
      Pool(Inserted(p.sweep, b, p.reusable), p.reusable, p.handed + {b},
           p.freed + BundleOf(Victim(p.sweep, p.reusable)))
    case Observe(reusable) => p.(reusable := reusable)
  }

  const START := Pool(Sweep(seq(PREFETCH, _ => Empty), 0, 0, -1), {}, {}, {})

  /** The slots own exactly these bundles, each in one slot. */
  ghost predicate OwnExactly(slots: seq<Slot>, bundles: set<Bundle>) {
    forall b: Bundle :: multiset(slots)[Owns(b)] == if b in bundles then 1 else 0
  }

  /** Every bundle sits in exactly one slot from the moment it is handed out until it is freed. */
  ghost predicate EachInOneSlot(p: Pool) {
    p.freed <= p.handed && OwnExactly(p.sweep.slots, p.handed - p.freed)
  }

  lemma StepKeepsSlots(s: Sweep, reusable: set<Bundle>)
    requires s.Valid() && s.index > 0
    ensures multiset(SweepStep(s, reusable).slots) == multiset(s.slots)
    ensures |SweepStep(s, reusable).slots| == |s.slots|
  {
    if s.left <= s.right && s.right + 1 < s.index {
      SwapKeepsSlots(s.slots, s.right + 1, s.left);
    }
  }

  lemma SwapKeepsSlots(slots: seq<Slot>, i: nat, j: nat)
    requires i < |slots| && j < |slots|
    ensures multiset(slots[i := slots[j]][j := slots[i]]) == multiset(slots)
  {
  }

  lemma {:induction false} SweepUnderKeepsSlots(s: Sweep, seen: seq<set<Bundle>>)
    requires s.Valid()
    ensures multiset(SweepUnder(s, seen).slots) == multiset(s.slots)
    decreases |seen|
  {
    if |seen| > 0 && s.index > 0 {
      StepKeepsSlots(s, seen[0]);
      SweepUnderKeepsSlots(SweepStep(s, seen[0]), seen[1..]);
    }
  }

  /** An insert adds its bundle, frees at most the victim, and keeps every other bundle. */
  lemma InsertedSlots(s: Sweep, b: Bundle, reusable: set<Bundle>, c: Bundle)
    requires s.Valid()
    ensures multiset(Inserted(s, b, reusable).slots)[Owns(c)]
         == multiset(s.slots)[Owns(c)] + (if c == b then 1 else 0)
            - (if Victim(s, reusable) == Owns(c) then 1 else 0)
    ensures Victim(s, reusable) == Owns(c) ==> multiset(s.slots)[Owns(c)] > 0
  {
    if Overwrites(s, reusable) {
      assert s.slots[s.index] in multiset(s.slots);
    }
  }

  function BundleOf(slot: Slot): set<Bundle> {
    if slot.Owns? then {slot.bundle} else {}
  }

  lemma InsertedOwns(s: Sweep, b: Bundle, reusable: set<Bundle>, bundles: set<Bundle>)
    requires s.Valid() && OwnExactly(s.slots, bundles) && b !in bundles
    ensures OwnExactly(Inserted(s, b, reusable).slots, bundles - BundleOf(Victim(s, reusable)) + {b})
    ensures BundleOf(Victim(s, reusable)) <= bundles * reusable
  {
    var v := Victim(s, reusable);
    forall c: Bundle
      ensures multiset(Inserted(s, b, reusable).slots)[Owns(c)]
           == if c in bundles - BundleOf(v) + {b} then 1 else 0
    {
      InsertedSlots(s, b, reusable, c);
    }
    if v.Owns? {
      InsertedSlots(s, b, reusable, v.bundle);
    }
  }

  /** The same for the whole of `emplace`, whatever its sweep steps observed. */
  lemma EmplacedOwns(s: Sweep, b: Bundle, seen: seq<set<Bundle>>, reusable: set<Bundle>, bundles: set<Bundle>)
    requires s.Valid() && OwnExactly(s.slots, bundles) && b !in bundles
    ensures var v := BundleOf(Victim(AfterGc(s, seen), reusable));
            && OwnExactly(Emplaced(s, b, seen, reusable).slots, bundles - v + {b})
            && v <= bundles * reusable
  {
    SweepUnderKeepsSlots(s, seen);
    InsertedOwns(AfterGc(s, seen), b, reusable, bundles);
  }

  /** Every operation keeps the bundles, and frees one only while it is observed reusable. */
  lemma ApplyKeepsSlots(p: Pool, op: Op)
    requires p.sweep.Valid() && EachInOneSlot(p) && Legal(p, op)
    ensures EachInOneSlot(Apply(p, op))
    ensures forall b :: b in Apply(p, op).freed - p.freed ==> b in p.reusable
  {
    match op
    case SweepOnce => StepKeepsSlots(p.sweep, p.reusable);
    case Insert(b) =>
      var v := Victim(p.sweep, p.reusable);
      InsertedOwns(p.sweep, b, p.reusable, p.handed - p.freed);
      var q := Apply(p, op);
      assert q.handed - q.freed == p.handed - p.freed - BundleOf(v) + {b};
    case Observe(_) =>
  }

  predicate IsRun(p: Pool, ops: seq<Op>)
    requires p.sweep.Valid()
    decreases |ops|
  {
    |ops| > 0 ==> Legal(p, ops[0]) && IsRun(Apply(p, ops[0]), ops[1..])
  }

  function RunFrom(p: Pool, ops: seq<Op>): (q: Pool)
    requires p.sweep.Valid() && IsRun(p, ops)
    ensures q.sweep.Valid()
    decreases |ops|
  {
    if |ops| == 0 then p else RunFrom(Apply(p, ops[0]), ops[1..])
  }

  lemma {:induction false} RunKeepsSlots(p: Pool, ops: seq<Op>)
    requires p.sweep.Valid() && EachInOneSlot(p) && IsRun(p, ops)
    ensures EachInOneSlot(RunFrom(p, ops))
    decreases |ops|
  {
    if |ops| > 0 {
      ApplyKeepsSlots(p, ops[0]);
      RunKeepsSlots(Apply(p, ops[0]), ops[1..]);
    }
  }

  /** Over every interleaving of single sweep steps, inserts and changes of what is reusable, the
      window bounds hold and no bundle is lost or owned twice. */
  lemma EveryRunKeepsBundles(ops: seq<Op>)
    requires IsRun(START, ops)
    ensures var p := RunFrom(START, ops);
            && 0 <= p.sweep.left <= p.sweep.right + 1 <= p.sweep.index <= |p.sweep.slots|
            && EachInOneSlot(p)
  {
    assert forall k :: 0 <= k < PREFETCH ==> START.sweep.slots[k] == Empty;
    assert forall b: Bundle :: Owns(b) !in START.sweep.slots;
    RunKeepsSlots(START, ops);
  }

  /** The operations of the sweep steps that observe `seen`. */
  function SweepOps(s: Sweep, seen: seq<set<Bundle>>): seq<Op>
    requires s.Valid()
    decreases |seen|
  {
    if |seen| == 0 || s.index == 0 then []
    else [Observe(seen[0]), SweepOnce] + SweepOps(SweepStep(s, seen[0]), seen[1..])
  }

  lemma {:induction false} SweepOpsRun(p: Pool, seen: seq<set<Bundle>>, reusable: set<Bundle>, b: Bundle)
    requires p.sweep.Valid() && b !in p.handed
    ensures var ops := SweepOps(p.sweep, seen) + [Observe(reusable), Insert(b)];
            && IsRun(p, ops)
            && RunFrom(p, ops)
            == Apply(p.(sweep := SweepUnder(p.sweep, seen), reusable := reusable), Insert(b))
    decreases |seen|
  {
    if |seen| == 0 || p.sweep.index == 0 {
      InsertRun(p, reusable, b);
      assert [] + [Observe(reusable), Insert(b)] == [Observe(reusable), Insert(b)];
    } else {
      var q := p.(sweep := SweepStep(p.sweep, seen[0]), reusable := seen[0]);
      SweepOpsRun(q, seen[1..], reusable, b);
      var rest := SweepOps(q.sweep, seen[1..]) + [Observe(reusable), Insert(b)];
      var ops := SweepOps(p.sweep, seen) + [Observe(reusable), Insert(b)];
      assert ops[0] == Observe(seen[0]) && ops[1..][0] == SweepOnce && ops[1..][1..] == rest;
    }
  }

  lemma InsertRun(p: Pool, reusable: set<Bundle>, b: Bundle)
    requires p.sweep.Valid() && b !in p.handed
    ensures var ops := [Observe(reusable), Insert(b)];
            IsRun(p, ops) && RunFrom(p, ops) == Apply(p.(reusable := reusable), Insert(b))
  {
    var ops, q := [Observe(reusable), Insert(b)], p.(reusable := reusable);
    assert ops[1..] == [Insert(b)];
    assert RunFrom(q, [Insert(b)]) == RunFrom(Apply(q, Insert(b)), []);
  }

  /** `Pool::emplace` is one of these runs, whatever its steps and its last test observe. */
  lemma EmplaceIsRun(p: Pool, b: Bundle, seen: seq<set<Bundle>>, reusable: set<Bundle>)
    requires p.sweep.Valid() && b !in p.handed
    ensures var gc := if |p.sweep.slots| > GC_THRESHOLD then SweepOps(p.sweep, seen) else [];
            var ops := gc + [Observe(reusable), Insert(b)];
            && IsRun(p, ops)
            && RunFrom(p, ops).sweep == Emplaced(p.sweep, b, seen, reusable)
            && RunFrom(p, ops).freed == p.freed + BundleOf(Victim(AfterGc(p.sweep, seen), reusable))
  {
    if |p.sweep.slots| > GC_THRESHOLD {
      SweepOpsRun(p, seen, reusable, b);
    } else {
      InsertRun(p, reusable, b);
      assert [] + [Observe(reusable), Insert(b)] == [Observe(reusable), Insert(b)];
    }
  }

  // ----- the window holds reusable slots only -----

  ghost predicate WindowReusable(s: Sweep, reusable: set<Bundle>)
    requires s.Valid()
  {
    forall k :: s.left <= k <= s.right ==> IsReusable(s.slots[k], reusable)
  }

  /** Bundles that are reusable stay reusable while the pool owns them. */
  ghost predicate Monotone(p: Pool, op: Op) {
    op.Observe? ==> forall b :: b in p.reusable && Owns(b) in p.sweep.slots ==> b in op.reusable
  }

  lemma ApplyKeepsWindow(p: Pool, op: Op)
    requires p.sweep.Valid() && Legal(p, op) && Monotone(p, op) && WindowReusable(p.sweep, p.reusable)
    ensures WindowReusable(Apply(p, op).sweep, Apply(p, op).reusable)
  {
  }

  ghost predicate IsMonotoneRun(p: Pool, ops: seq<Op>)
    requires p.sweep.Valid() && IsRun(p, ops)
    decreases |ops|
  {
    |ops| > 0 ==> Monotone(p, ops[0]) && IsMonotoneRun(Apply(p, ops[0]), ops[1..])
  }

  lemma {:induction false} RunKeepsWindow(p: Pool, ops: seq<Op>)
    requires p.sweep.Valid() && IsRun(p, ops) && IsMonotoneRun(p, ops) && WindowReusable(p.sweep, p.reusable)
    ensures WindowReusable(RunFrom(p, ops).sweep, RunFrom(p, ops).reusable)
    decreases |ops|
  {
    if |ops| > 0 {
      ApplyKeepsWindow(p, ops[0]);
      RunKeepsWindow(Apply(p, ops[0]), ops[1..]);
    }
  }

  // ----- the code in place -----

  class ConnectionPool {
    var container: seq<Slot>
    var reusableIndex: int
    var left: int
    var right: int

    ghost function Abs(): Sweep
      reads this
    {
      Sweep(container, reusableIndex, left, right)
    }

    constructor ()
      ensures Abs() == START.sweep
    {
      container := seq(PREFETCH, _ => Empty);
      reusableIndex, left, right := 0, 0, -1;
    }

    method ResetWindow()
      modifies this
      ensures Abs() == old(Abs()).(left := 0, right := -1)
    {
      left := 0;
      right := -1;
    }

    method DoUpdate(reusable: set<Bundle>)
      requires Abs().Valid() && reusableIndex > 0
      modifies this
      ensures Abs() == SweepStep(old(Abs()), reusable)
    {
      if left > right {
        if IsReusable(container[left], reusable) {
          right := right + 1;
        } else {
          left := left + 1;
          right := right + 1;
          if left == reusableIndex {
            ResetWindow();
          }
        }
        return;
      }
      if right + 1 == reusableIndex {
        reusableIndex := left;
        ResetWindow();
      } else if IsReusable(container[right + 1], reusable) {
        right := right + 1;
      } else {
        right := right + 1;
        container := container[right := container[left]][left := container[right]];
        left := left + 1;
      }
    }

    /** `updateReusableIndex`: step `i` observes `seen[i]`. */
    method UpdateReusableIndex(seen: seq<set<Bundle>>)
      requires Abs().Valid() && |seen| == STEP
      modifies this
      ensures Abs() == SweepUnder(old(Abs()), seen)
    {
      for i := 0 to STEP
        invariant Abs().Valid()
        invariant SweepUnder(Abs(), seen[i..]) == SweepUnder(old(Abs()), seen)
      {
        if reusableIndex != 0 {
          DoUpdate(seen[i]);
          assert seen[i..][1..] == seen[i + 1..];
        } else {
          return;
        }
      }
    }

    /** `Pool::emplace`, whose last test observes `reusable`: returns the slot that was overwritten. */
    method Emplace(b: Bundle, seen: seq<set<Bundle>>, reusable: set<Bundle>) returns (victim: Slot)
      requires Abs().Valid() && |seen| == STEP
      modifies this
      ensures Abs() == Emplaced(old(Abs()), b, seen, reusable)
      ensures victim == Victim(AfterGc(old(Abs()), seen), reusable)
    {
      if |container| > GC_THRESHOLD {
        UpdateReusableIndex(seen);
      }
      if reusableIndex != |container| && IsReusable(container[reusableIndex], reusable) {
        var pos := reusableIndex;
        reusableIndex := reusableIndex + 1;
        victim := container[pos];
        container := container[pos := Owns(b)];
        return;
      }
      container := container + [Owns(b)];
      victim := Empty;
    }
  }
}
