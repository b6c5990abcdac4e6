/** Waiting for several futures: the polled functors behind `whenN` and `whenAll`. */
module WhenFutures {
  import Futures

  type Value = Futures.Value

  type Option = Futures.Option

  /** A result: the index of its future, and its value. */
  datatype Result = Result(index: nat, value: Value)

  /** What one poll sees: the value of each future that has one. */
  type Sample = nat -> Option

  function Indices(results: seq<Result>): (r: seq<nat>)
    ensures |r| == |results|
    ensures forall k :: 0 <= k < |r| ==> r[k] == results[k].index
  {
    if |results| == 0 then [] else [results[0].index] + Indices(results[1..])
  }

  lemma IndicesAppend(results: seq<Result>, r: Result)
    ensures Indices(results + [r]) == Indices(results) + [r.index]
  {
  }

  predicate Answers(sample: Sample, q: nat, cond: Value -> bool) {
    sample(q).Some? && cond(sample(q).value)
  }

  predicate SeenIn(sample: Sample, r: Result, cond: Value -> bool) {
    sample(r.index) == Futures.Some(r.value) && cond(r.value)
  }

  ghost predicate Seen(r: Result, samples: seq<Sample>, cond: Value -> bool) {
    exists k :: 0 <= k < |samples| && SeenIn(samples[k], r, cond)
  }

  /** Each result had a value that satisfied the condition in one of the samples. */
  ghost predicate AllSeen(results: seq<Result>, samples: seq<Sample>, cond: Value -> bool) {
    forall i :: 0 <= i < |results| ==> Seen(results[i], samples, cond)
  }

  lemma SeenStays(r: Result, samples: seq<Sample>, sample: Sample, cond: Value -> bool)
    requires Seen(r, samples, cond)
    ensures Seen(r, samples + [sample], cond)
  {
    var k :| 0 <= k < |samples| && SeenIn(samples[k], r, cond);
    assert SeenIn((samples + [sample])[k], r, cond);
  }

  lemma AllSeenStays(results: seq<Result>, samples: seq<Sample>, sample: Sample, cond: Value -> bool)
    requires AllSeen(results, samples, cond)
    ensures AllSeen(results, samples + [sample], cond)
  {
    forall i | 0 <= i < |results| ensures Seen(results[i], samples + [sample], cond) {
      SeenStays(results[i], samples, sample, cond);
    }
  }

  lemma AllSeenGrows(results: seq<Result>, r: Result, samples: seq<Sample>, cond: Value -> bool)
    requires AllSeen(results, samples, cond)
    requires |samples| > 0 && SeenIn(samples[|samples| - 1], r, cond)
    ensures AllSeen(results + [r], samples, cond)
  {
  }

  /** Each input is asked for, or answered, or did not answer. */
  ghost predicate Partition(queries: seq<nat>, noresponse: seq<nat>, results: seq<Result>, inputs: nat) {
    multiset(queries) + multiset(noresponse) + multiset(Indices(results)) == multiset(Inputs(inputs))
  }

  ghost predicate AllSilent(noresponse: seq<nat>, sample: Sample, cond: Value -> bool) {
    forall q :: q in noresponse ==> !Answers(sample, q, cond)
  }

  /** How many of the queries answer. */
  function AnswerCount(queries: seq<nat>, sample: Sample, cond: Value -> bool): nat {
    if |queries| == 0 then 0
    else
      AnswerCount(queries[..|queries| - 1], sample, cond)
      + (if Answers(sample, queries[|queries| - 1], cond) then 1 else 0)
  }

  /** The answers of these queries, the last query first. */
  function AnswersOf(asked: seq<nat>, sample: Sample, cond: Value -> bool): seq<Result> {
    if |asked| == 0 then []
    else
      AnswersOf(asked[1..], sample, cond)
      + (if Answers(sample, asked[0], cond) then [Result(asked[0], sample(asked[0]).value)] else [])
  }

  /** Those that do not answer, the last first. */
  function SilentOf(asked: seq<nat>, sample: Sample, cond: Value -> bool): seq<nat> {
    if |asked| == 0 then []
    else
      SilentOf(asked[1..], sample, cond) + (if Answers(sample, asked[0], cond) then [] else [asked[0]])
  }

  /** A poll has asked all but the first `m` queries: they gave the results `found` and `silent` did not
      answer. */
  ghost predicate Asked(queries: seq<nat>, m: nat, sample: Sample, cond: Value -> bool,
                        found: seq<Result>, silent: seq<nat>)
  {
    m <= |queries| && found == AnswersOf(queries[m..], sample, cond) && silent == SilentOf(queries[m..], sample, cond)
  }

  lemma AskedOneMore(queries: seq<nat>, m: nat, sample: Sample, cond: Value -> bool,
                     found: seq<Result>, silent: seq<nat>)
    requires 0 < m && Asked(queries, m, sample, cond, found, silent)
    ensures var q := queries[m - 1];
            if Answers(sample, q, cond)
            then Asked(queries, m - 1, sample, cond, found + [Result(q, sample(q).value)], silent)
            else Asked(queries, m - 1, sample, cond, found, silent + [q])
  {
    assert queries[m - 1..][1..] == queries[m..];
  }

  /** The binder of `whenNTemplate` and the locals of its functor. */
  datatype Round = Round(queries: seq<nat>, noresponse: seq<nat>, results: seq<Result>, remain: nat)

  /** One iteration: the last query answers, or is put aside. */
  function Ask(r: Round, sample: Sample, cond: Value -> bool): Round
    requires r.remain > 0 && |r.queries| > 0
  {
    var q, rest := r.queries[|r.queries| - 1], r.queries[..|r.queries| - 1];
    if Answers(sample, q, cond) then
      Round(rest, r.noresponse, r.results + [Result(q, sample(q).value)], r.remain - 1)
    else
      Round(rest, r.noresponse + [q], r.results, r.remain)
  }

  lemma AskKeepsPartition(r: Round, sample: Sample, cond: Value -> bool, inputs: nat)
    requires r.remain > 0 && |r.queries| > 0
    requires Partition(r.queries, r.noresponse, r.results, inputs)
    ensures var s := Ask(r, sample, cond); Partition(s.queries, s.noresponse, s.results, inputs)
  {
    var q, rest := r.queries[|r.queries| - 1], r.queries[..|r.queries| - 1];
    assert r.queries == rest + [q];
    if Answers(sample, q, cond) {
      IndicesAppend(r.results, Result(q, sample(q).value));
    }
  }

  /** What a poll that started with the queries `before`, the results `had` and `need` answers missing
      has done so far. */
  ghost predicate SoFar(before: seq<nat>, had: seq<Result>, need: nat, sample: Sample, cond: Value -> bool, r: Round) {
    && |r.queries| <= |before| && r.queries == before[..|r.queries|] && had <= r.results && r.remain <= need
    && Asked(before, |r.queries|, sample, cond, r.results[|had|..], r.noresponse)
    && (r.remain == 0 && need > 0 ==>
          |r.queries| < |before| && Answers(sample, before[|r.queries|], cond))
    && AnswerCount(before, sample, cond) == AnswerCount(r.queries, sample, cond) + need - r.remain
  }

  lemma AskKeepsSoFar(before: seq<nat>, had: seq<Result>, need: nat, sample: Sample, cond: Value -> bool, r: Round)
    requires SoFar(before, had, need, sample, cond, r)
    requires r.remain > 0 && |r.queries| > 0
    ensures SoFar(before, had, need, sample, cond, Ask(r, sample, cond))
  {
    var s := Ask(r, sample, cond);
    var m := |r.queries|;
    AskedOneMore(before, m, sample, cond, r.results[|had|..], r.noresponse);
    assert s.queries == before[..m - 1] && r.queries[m - 1] == before[m - 1];
    if Answers(sample, before[m - 1], cond) {
      assert s.results[|had|..] == r.results[|had|..] + [s.results[|r.results|]];
    }
  }

  lemma SoFarStarts(before: seq<nat>, had: seq<Result>, need: nat, sample: Sample, cond: Value -> bool)
    ensures SoFar(before, had, need, sample, cond, Round(before, [], had, need))
  {
    assert before[..|before|] == before && before[|before|..] == [] && had[|had|..] == [];
  }

  /** What a whole poll has done, when queries are those that did not answer: it is done exactly if
      there are enough answers; it has asked from the back, all or until the answers were enough, and
      put the unasked aside. */
  ghost predicate Polled(before: seq<nat>, had: seq<Result>, need: nat, sample: Sample, cond: Value -> bool, r: Round) {
    var m := |r.noresponse|;
    && (r.remain == 0 <==> AnswerCount(before, sample, cond) >= need)
    && m <= |before| && r.noresponse == before[..m] && had <= r.results
    && Asked(before, m, sample, cond, r.results[|had|..], r.queries)
    && (r.remain > 0 ==> m == 0)
    && (r.remain == 0 && need > 0 ==> m < |before| && Answers(sample, before[m], cond))
  }

  lemma SoFarEnds(before: seq<nat>, had: seq<Result>, need: nat, sample: Sample, cond: Value -> bool, r: Round)
    requires SoFar(before, had, need, sample, cond, r) && (r.remain == 0 || r.queries == [])
    ensures Polled(before, had, need, sample, cond, Swapped(r))
  {
  }

  /** Between two iterations of a poll. */
  ghost predicate Collecting(r: Round, samples: seq<Sample>, cond: Value -> bool, n: nat, inputs: nat) {
    && r.remain + |r.results| == n
    && Partition(r.queries, r.noresponse, r.results, inputs)
    && AllSeen(r.results, samples, cond)
    && |samples| > 0 && AllSilent(r.noresponse, samples[|samples| - 1], cond)
  }

  lemma AskKeepsCollecting(r: Round, samples: seq<Sample>, cond: Value -> bool, n: nat, inputs: nat)
    requires Collecting(r, samples, cond, n, inputs) && r.remain > 0 && |r.queries| > 0
    ensures Collecting(Ask(r, samples[|samples| - 1], cond), samples, cond, n, inputs)
  {
    var sample := samples[|samples| - 1];
    AskKeepsPartition(r, sample, cond, inputs);
    var q := r.queries[|r.queries| - 1];
    if Answers(sample, q, cond) {
      AllSeenGrows(r.results, Result(q, sample(q).value), samples, cond);
    }
  }

  /** Between two polls: while answers are missing, nothing is put aside, and queries and results
      partition the inputs; every result was seen with its value. */
  ghost predicate Settled(r: Round, samples: seq<Sample>, cond: Value -> bool, n: nat, inputs: nat) {
    && r.remain + |r.results| == n
    && (r.remain > 0 ==> r.noresponse == [])
    && Partition(r.queries, r.noresponse, r.results, inputs)
    && AllSeen(r.results, samples, cond)
  }

  /** The swap at the end of a poll. */
  function Swapped(r: Round): Round {
    r.(queries := r.noresponse, noresponse := r.queries)
  }

  lemma PollEnds(r: Round, samples: seq<Sample>, cond: Value -> bool, n: nat, inputs: nat)
    requires Collecting(r, samples, cond, n, inputs) && (r.remain == 0 || |r.queries| == 0)
    ensures Settled(Swapped(r), samples, cond, n, inputs)
    ensures AllSilent(Swapped(r).queries, samples[|samples| - 1], cond)
  {
  }

  /** The functor of `whenNTemplate`, and its binder. */
  class WhenN {
    var queries: seq<nat>
    var results: seq<Result>
    var noresponse: seq<nat>
    var remain: nat
    const cond: Value -> bool
    const n: nat
    const inputs: nat
    ghost var samples: seq<Sample>

    ghost function RoundOf(): Round
      reads this`queries, this`noresponse, this`results, this`remain
    {
      Round(queries, noresponse, results, remain)
    }

    ghost predicate Valid()
      reads this
    {
      Settled(RoundOf(), samples, cond, n, inputs)
    }

    constructor (n: nat, inputs: nat, cond: Value -> bool)
      ensures Valid() && remain == n && queries == Inputs(inputs) && samples == []
      ensures this.n == n && this.inputs == inputs && this.cond == cond
    {
      this.n, this.inputs, this.cond := n, inputs, cond;
      queries, results, noresponse, remain, samples := Inputs(inputs), [], [], n, [];
    }

    /** One poll: asks the futures from the back, collects answers until there are enough, and keeps
        the others for the next poll. */
    method Poll(sample: Sample) returns (done: bool)
      requires Valid() && noresponse == []
      modifies this
      ensures Valid() && samples == old(samples) + [sample]
      ensures done <==> remain == 0
      ensures Polled(old(queries), old(results), old(remain), sample, cond, RoundOf())
      // the remaining queries gave no answer: they have no value, or one that fails the condition
      ensures forall q :: q in queries ==> sample(q).None? || !cond(sample(q).value)
    {
      StartPoll(sample);
      AskAll(sample, queries, results, remain);
      PollEnds(RoundOf(), samples, cond, n, inputs);
      SoFarEnds(old(queries), old(results), old(remain), sample, cond, RoundOf());
      ghost var swapped := Swapped(RoundOf());
      noresponse, queries := queries, noresponse;
      done := remain == 0;
      assert RoundOf() == swapped;
    }

    ghost method StartPoll(sample: Sample)
      requires Valid() && noresponse == []
      modifies this`samples
      ensures samples == old(samples) + [sample] && Collecting(RoundOf(), samples, cond, n, inputs)
    {
      AllSeenStays(results, samples, sample, cond);
      samples := samples + [sample];
    }

    /** The loop of a poll. */
    method AskAll(sample: Sample, ghost before: seq<nat>, ghost had: seq<Result>, ghost need: nat)
      requires Collecting(RoundOf(), samples, cond, n, inputs) && samples[|samples| - 1] == sample
      requires queries == before && results == had && remain == need && noresponse == []
      modifies this`queries, this`results, this`noresponse, this`remain
      ensures Collecting(RoundOf(), samples, cond, n, inputs) && SoFar(before, had, need, sample, cond, RoundOf())
      ensures remain == 0 || queries == []
    {
      SoFarStarts(before, had, need, sample, cond);
      while remain > 0 && |queries| > 0
        invariant Collecting(RoundOf(), samples, cond, n, inputs)
        invariant SoFar(before, had, need, sample, cond, RoundOf())
        decreases |queries|
      {
        AskNext(sample, before, had, need);
      }
    }

    method AskNext(sample: Sample, ghost before: seq<nat>, ghost had: seq<Result>, ghost need: nat)
      requires Collecting(RoundOf(), samples, cond, n, inputs) && samples[|samples| - 1] == sample
      requires remain > 0 && |queries| > 0 && SoFar(before, had, need, sample, cond, RoundOf())
      modifies this`queries, this`results, this`noresponse, this`remain
      ensures Collecting(RoundOf(), samples, cond, n, inputs) && SoFar(before, had, need, sample, cond, RoundOf())
      ensures |queries| == |old(queries)| - 1
    {
      AskKeepsSoFar(before, had, need, sample, cond, RoundOf());
      AskLast(sample);
    }

    method AskLast(sample: Sample)
      requires Collecting(RoundOf(), samples, cond, n, inputs) && samples[|samples| - 1] == sample
      requires remain > 0 && |queries| > 0
      modifies this`queries, this`results, this`noresponse, this`remain
      ensures Collecting(RoundOf(), samples, cond, n, inputs)
      ensures RoundOf() == Ask(old(RoundOf()), sample, cond) && |queries| == |old(queries)| - 1
    {
      ghost var next := Ask(RoundOf(), sample, cond);
      AskKeepsCollecting(RoundOf(), samples, cond, n, inputs);
      var query := queries[|queries| - 1];
      var state := sample(query);
      if state.Some? && cond(state.value) {
        results := results + [Result(query, state.value)];
        remain := remain - 1;
      } else {
        noresponse := noresponse + [query];
      }
      queries := queries[..|queries| - 1];
      assert RoundOf() == next;
    }

    /** The last stage: the results sorted by index.  There are exactly `n`, their indices are
        strictly increasing input indices, and each was seen with a value that satisfied the
        condition. */
    method Finish() returns (sorted: seq<Result>)
      requires Valid() && remain == 0
      ensures |sorted| == n && multiset(sorted) == multiset(results)
      ensures forall i, j :: 0 <= i < j < |sorted| ==> sorted[i].index < sorted[j].index
      ensures forall i :: 0 <= i < |sorted| ==> sorted[i].index < inputs
      ensures AllSeen(sorted, samples, cond)
    {
      sorted := SortByIndex(results);
      SortPermutes(results);
      SortedIsStrict(queries, noresponse, results, inputs);
      assert |multiset(sorted)| == |multiset(results)|;
      forall i | 0 <= i < |sorted| ensures Seen(sorted[i], samples, cond) {
        assert sorted[i] in multiset(results);
      }
    }
  }

  /** The indices 0, ..., n - 1. */
  function Inputs(n: nat): seq<nat> {
    if n == 0 then [] else Inputs(n - 1) + [n - 1]
  }

  lemma {:induction false} InputsOnce(n: nat, i: nat)
    ensures multiset(Inputs(n))[i] == if i < n then 1 else 0
  {
    if n > 0 {
      InputsOnce(n - 1, i);
    }
  }

  // ----- sorting by index -----

  predicate IsSorted(rs: seq<Result>) {
    forall i, j :: 0 <= i < j < |rs| ==> rs[i].index <= rs[j].index
  }

  function Insert(r: Result, rs: seq<Result>): (s: seq<Result>)
    ensures |s| == |rs| + 1
    ensures s[0] == r || (|rs| > 0 && s[0] == rs[0])
  {
    if |rs| == 0 then [r]
    else if r.index <= rs[0].index then [r] + rs
    else [rs[0]] + Insert(r, rs[1..])
  }

  lemma {:induction false} InsertKeepsAll(r: Result, rs: seq<Result>)
    ensures multiset(Insert(r, rs)) == multiset(rs) + multiset{r}
  {
    if |rs| > 0 {
      assert rs == [rs[0]] + rs[1..];
      if r.index > rs[0].index {
        InsertKeepsAll(r, rs[1..]);
      }
    }
  }

  lemma {:induction false} InsertKeepsIndices(r: Result, rs: seq<Result>)
    ensures multiset(Indices(Insert(r, rs))) == multiset(Indices(rs)) + multiset{r.index}
  {
    if |rs| > 0 && r.index > rs[0].index {
      var tail := Insert(r, rs[1..]);
      InsertKeepsIndices(r, rs[1..]);
      assert ([rs[0]] + tail)[1..] == tail;
    } else if |rs| > 0 {
      assert ([r] + rs)[1..] == rs;
    }
  }

  lemma {:induction false} InsertSorts(r: Result, rs: seq<Result>)
    requires IsSorted(rs)
    ensures IsSorted(Insert(r, rs))
  {
    if |rs| > 0 && r.index > rs[0].index {
      InsertSorts(r, rs[1..]);
    }
  }

  /** `std::sort` by index. */
  function SortByIndex(rs: seq<Result>): seq<Result> {
    if |rs| == 0 then [] else Insert(rs[0], SortByIndex(rs[1..]))
  }

  lemma {:induction false} SortSorts(rs: seq<Result>)
    ensures IsSorted(SortByIndex(rs))
  {
    if |rs| > 0 {
      SortSorts(rs[1..]);
      InsertSorts(rs[0], SortByIndex(rs[1..]));
    }
  }

  lemma {:induction false} SortPermutes(rs: seq<Result>)
    ensures multiset(SortByIndex(rs)) == multiset(rs)
  {
    if |rs| > 0 {
      assert rs == [rs[0]] + rs[1..];
      SortPermutes(rs[1..]);
      InsertKeepsAll(rs[0], SortByIndex(rs[1..]));
    }
  }

  lemma {:induction false} SortPermutesIndices(rs: seq<Result>)
    ensures multiset(Indices(SortByIndex(rs))) == multiset(Indices(rs))
  {
    if |rs| > 0 {
      SortPermutesIndices(rs[1..]);
      InsertKeepsIndices(rs[0], SortByIndex(rs[1..]));
    }
  }

  lemma TwiceCounts(s: seq<nat>, i: nat, j: nat)
    requires i < j < |s| && s[i] == s[j]
    ensures multiset(s)[s[i]] >= 2
  {
    assert s == s[..i] + [s[i]] + s[i + 1..j] + [s[j]] + s[j + 1..];
  }

  lemma SortedIsStrict(queries: seq<nat>, noresponse: seq<nat>, results: seq<Result>, inputs: nat)
    requires Partition(queries, noresponse, results, inputs)
    ensures var s := SortByIndex(results);
            && (forall i, j :: 0 <= i < j < |s| ==> s[i].index < s[j].index)
            && forall i :: 0 <= i < |s| ==> s[i].index < inputs
  {
    SortSorts(results);
    SortPermutesIndices(results);
    var s := SortByIndex(results);
    forall i, j | 0 <= i < j < |s| ensures s[i].index < s[j].index {
      IndexOnce(queries, noresponse, results, inputs, s[i].index);
      if s[i].index == s[j].index {
        TwiceCounts(Indices(s), i, j);
      }
    }
    forall i | 0 <= i < |s| ensures s[i].index < inputs {
      IndexOnce(queries, noresponse, results, inputs, s[i].index);
      assert Indices(s)[i] in multiset(Indices(s));
    }
  }

  lemma IndexOnce(queries: seq<nat>, noresponse: seq<nat>, results: seq<Result>, inputs: nat, k: nat)
    requires Partition(queries, noresponse, results, inputs)
    ensures multiset(Indices(results))[k] <= (if k < inputs then 1 else 0)
  {
    InputsOnce(inputs, k);
    assert multiset(Indices(results))[k] <= multiset(Inputs(inputs))[k];
  }

  // ----- whenAll -----

  /** `TupleHelper::forEach` with the functor of `whenAllTemplate`: stops at the first future without
      a value.  `asked` is how many it looked at. */
  method WhenAllPoll(blocks: seq<Option>) returns (pass: bool, asked: nat, res: seq<Value>)
    ensures pass <==> forall i :: 0 <= i < |blocks| ==> blocks[i].Some?
    ensures pass ==> |res| == |blocks| && forall i :: 0 <= i < |blocks| ==> res[i] == blocks[i].value
    ensures asked <= |blocks| && forall i :: 0 <= i < asked - 1 ==> blocks[i].Some?
  {
    pass, asked, res := true, 0, [];
    while asked < |blocks| && pass
      invariant asked <= |blocks|
      invariant forall i :: 0 <= i < asked - 1 ==> blocks[i].Some?
      invariant pass ==> forall i :: 0 <= i < asked ==> blocks[i].Some?
      invariant !pass ==> asked > 0 && blocks[asked - 1].None?
    {
      pass := pass && blocks[asked].Some?;
      asked := asked + 1;
    }
    if pass {
      for i := 0 to |blocks|
        invariant |res| == i && forall k :: 0 <= k < i ==> res[k] == blocks[k].value
      {
        res := res + [blocks[i].value];
      }
    }
  }
}
