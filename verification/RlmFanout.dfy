/** The concurrent fan-out of one run: jobs start in snippet order, a bounded
    number at a time, and complete in any order; the results are then sorted by
    snippet index and turned into trajectory steps and partial answers. */
module RlmFanout {

  import opened Common

  /** What a job yields whenever it completes; only its latency is open. */
  datatype Job = Job(prov: string, answer: Option<string>, depth: nat)

  datatype Result = Result(index: nat, job: Job, latency: int)

  // ------------------------------------------------------- buffered execution

  datatype Pool = Pool(next: nat, inFlight: set<nat>, done: seq<Result>)

  datatype Event = Start | Complete(index: nat, latency: int)

  const MAX_CONCURRENCY: nat := 8

  /** The requested concurrency, clamped to 1 to 8. */
  function Concurrency(requested: nat): nat {
    if requested < 1 then 1 else if requested > MAX_CONCURRENCY then MAX_CONCURRENCY else requested
  }

  predicate Enabled(jobs: seq<Job>, requested: nat, p: Pool, e: Event) {
    match e
    case Start => p.next < |jobs| && |p.inFlight| < Concurrency(requested)
    case Complete(i, _) => i in p.inFlight && i < |jobs|
  }

  function Apply(jobs: seq<Job>, requested: nat, p: Pool, e: Event): Pool
    requires Enabled(jobs, requested, p, e)
  {
    match e
    case Start => p.(next := p.next + 1, inFlight := p.inFlight + {p.next})
    case Complete(i, latency) => p.(inFlight := p.inFlight - {i}, done := p.done + [Result(i, jobs[i], latency)])
  }

  ghost predicate IsRun(jobs: seq<Job>, requested: nat, events: seq<Event>, pools: seq<Pool>) {
    && |pools| == |events| + 1
    && pools[0] == Pool(0, {}, [])
    && forall k | 0 <= k < |events| ::
         Enabled(jobs, requested, pools[k], events[k]) && pools[k + 1] == Apply(jobs, requested, pools[k], events[k])
  }

  predicate Drained(jobs: seq<Job>, p: Pool) {
    p.next == |jobs| && p.inFlight == {}
  }

  /** Every started job is in flight or completed, and none completes twice. */
  ghost predicate Accounted(jobs: seq<Job>, p: Pool) {
    && p.next <= |jobs|
    && (forall i | i in p.inFlight :: i < p.next)
    && (forall k | 0 <= k < |p.done| ::
          p.done[k].index < p.next && p.done[k].index !in p.inFlight && p.done[k].job == jobs[p.done[k].index])
    && (forall k, l | 0 <= k < l < |p.done| :: p.done[k].index != p.done[l].index)
    && (forall i | 0 <= i < p.next :: i in p.inFlight || HasIndex(p.done, i))
  }

  ghost predicate HasIndex(rs: seq<Result>, i: nat) {
    exists k | 0 <= k < |rs| :: rs[k].index == i
  }

  lemma HasIndexGrows(rs: seq<Result>, r: Result, i: nat)
    ensures HasIndex(rs + [r], i) <==> HasIndex(rs, i) || r.index == i
  {
    assert (rs + [r])[|rs|] == r;
    if HasIndex(rs, i) {
      var k :| 0 <= k < |rs| && rs[k].index == i;
      assert (rs + [r])[k].index == i;
    }
  }

  lemma StartAccounts(jobs: seq<Job>, requested: nat, p: Pool)
    requires Accounted(jobs, p) && Enabled(jobs, requested, p, Start)
    ensures Accounted(jobs, Apply(jobs, requested, p, Start))
  {
  }

  lemma CompleteAccounts(jobs: seq<Job>, requested: nat, p: Pool, i: nat, latency: int)
    requires Accounted(jobs, p) && Enabled(jobs, requested, p, Complete(i, latency))
    ensures Accounted(jobs, Apply(jobs, requested, p, Complete(i, latency)))
  {
    var p' := Apply(jobs, requested, p, Complete(i, latency));
    forall j | 0 <= j < p'.next ensures j in p'.inFlight || HasIndex(p'.done, j) {
      HasIndexGrows(p.done, Result(i, jobs[i], latency), j);
    }
  }

  lemma StepAccounts(jobs: seq<Job>, requested: nat, p: Pool, e: Event)
    requires Accounted(jobs, p) && Enabled(jobs, requested, p, e)
    ensures Accounted(jobs, Apply(jobs, requested, p, e))
  {
    match e
    case Start => StartAccounts(jobs, requested, p);
    case Complete(i, latency) => CompleteAccounts(jobs, requested, p, i, latency);
  }

  lemma {:induction false} RunAccounts(jobs: seq<Job>, requested: nat, events: seq<Event>, pools: seq<Pool>, k: nat)
    requires IsRun(jobs, requested, events, pools) && k < |pools|
    ensures Accounted(jobs, pools[k])
  {
    if k > 0 {
      RunAccounts(jobs, requested, events, pools, k - 1);
      StepAccounts(jobs, requested, pools[k - 1], events[k - 1]);
    }
  }

  // ------------------------------------------------------------------ sorting

  predicate SortedByIndex(rs: seq<Result>) {
    forall k, l | 0 <= k < l < |rs| :: rs[k].index <= rs[l].index
  }

  lemma {:induction false} DistinctOnce(rs: seq<Result>, x: Result)
    requires forall k, l | 0 <= k < l < |rs| :: rs[k].index != rs[l].index
    ensures multiset(rs)[x] <= 1
  {
    if rs != [] {
      assert rs == rs[..|rs| - 1] + [rs[|rs| - 1]];
      DistinctOnce(rs[..|rs| - 1], x);
      if x == rs[|rs| - 1] {
        assert x !in rs[..|rs| - 1];
      }
    }
  }

  lemma RepeatedTwice(rs: seq<Result>, k: nat, l: nat)
    requires k < l < |rs| && rs[k] == rs[l]
    ensures multiset(rs)[rs[k]] >= 2
  {
    assert rs == rs[..l] + [rs[l]] + rs[l + 1..];
    assert rs[k] in rs[..l];
  }

  lemma SortedIsStrict(done: seq<Result>, sorted: seq<Result>)
    requires forall k, l | 0 <= k < l < |done| :: done[k].index != done[l].index
    requires multiset(sorted) == multiset(done) && SortedByIndex(sorted)
    ensures forall k, l | 0 <= k < l < |sorted| :: sorted[k].index < sorted[l].index
  {
    forall k, l | 0 <= k < l < |sorted| ensures sorted[k].index < sorted[l].index {
      if sorted[k].index == sorted[l].index {
        SameElement(done, sorted, k);
        SameElement(done, sorted, l);
        DistinctOnce(done, sorted[k]);
        RepeatedTwice(sorted, k, l);
      }
    }
  }

  lemma SameElement(done: seq<Result>, sorted: seq<Result>, k: nat)
    requires k < |sorted| && multiset(sorted) == multiset(done)
    ensures exists m | 0 <= m < |done| :: done[m] == sorted[k]
  {
    assert sorted[k] in multiset(sorted);
  }

  /** A strictly increasing list that covers 0..n-1 and nothing else is 0, 1, .., n-1. */
  lemma {:induction false} CountsUp(rs: seq<Result>, n: nat, k: nat)
    requires forall a, b | 0 <= a < b < |rs| :: rs[a].index < rs[b].index
    requires forall i | 0 <= i < n :: HasIndex(rs, i)
    requires k < n
    ensures k < |rs| && rs[k].index == k
  {
    assert HasIndex(rs, k);
    var a :| 0 <= a < |rs| && rs[a].index == k;
    if k > 0 {
      CountsUp(rs, n, k - 1);
    }
    if a < k {
      CountsUp(rs, n, a);
    }
  }

  lemma CountsUpExactly(rs: seq<Result>, n: nat)
    requires forall a, b | 0 <= a < b < |rs| :: rs[a].index < rs[b].index
    requires forall i | 0 <= i < n :: HasIndex(rs, i)
    requires forall a | 0 <= a < |rs| :: rs[a].index < n
    ensures |rs| == n
  {
    if n > 0 {
      CountsUp(rs, n, n - 1);
    }
    if rs != [] {
      IndexAtLeast(rs, |rs| - 1);
    }
  }

  lemma {:induction false} IndexAtLeast(rs: seq<Result>, k: nat)
    requires forall a, b | 0 <= a < b < |rs| :: rs[a].index < rs[b].index
    requires k < |rs|
    ensures rs[k].index >= k
  {
    if k > 0 {
      IndexAtLeast(rs, k - 1);
    }
  }

  function Sequential(jobs: seq<Job>, latencies: seq<int>): seq<Result>
    requires |latencies| == |jobs|
  {
    seq(|jobs|, i requires 0 <= i < |jobs| => Result(i, jobs[i], latencies[i]))
  }

  /** Every completion order sorts to the sequential order. */
  lemma SortRestoresOrder(jobs: seq<Job>, requested: nat, events: seq<Event>, pools: seq<Pool>, sorted: seq<Result>)
    requires IsRun(jobs, requested, events, pools)
    requires var last := pools[|events|]; Drained(jobs, last) && multiset(sorted) == multiset(last.done)
    requires SortedByIndex(sorted)
    ensures |sorted| == |jobs|
    ensures sorted == Sequential(jobs, seq(|jobs|, i requires 0 <= i < |jobs| && i < |sorted| => sorted[i].latency))
  {
    var p := pools[|events|];
    RunAccounts(jobs, requested, events, pools, |events|);
    SortedIsStrict(p.done, sorted);
    forall i | 0 <= i < |jobs| ensures HasIndex(sorted, i) {
      assert HasIndex(p.done, i);
      var k :| 0 <= k < |p.done| && p.done[k].index == i;
      SameElement(sorted, p.done, k);
    }
    forall k | 0 <= k < |sorted| ensures sorted[k].index < |jobs| && sorted[k].job == jobs[sorted[k].index] {
      SameElement(p.done, sorted, k);
    }
    CountsUpExactly(sorted, |jobs|);
    forall k | 0 <= k < |jobs| ensures sorted[k].index == k {
      CountsUp(sorted, |jobs|, k);
    }
  }

  // ------------------------------------------------- steps and partial answers

  /** How an answer is judged and trimmed; the trimming rules are left open. */
  datatype Reader = Reader(trim: string -> string, notFound: string -> bool)

  predicate Useful(reader: Reader, answer: string) {
    reader.trim(answer) != "" && !reader.notFound(reader.trim(answer))
  }

  datatype Step = Step(ord: int, depth: nat, tokens: nat, success: bool, latency: int)

  function StepOf(reader: Reader, r: Result, ord: int): Step {
    match r.job.answer
    case Some(a) => Step(ord, r.job.depth, |a| / 4, Useful(reader, a), r.latency)
    case None => Step(ord, r.job.depth, 0, false, r.latency)
  }

  function Partials(reader: Reader, rs: seq<Result>): seq<string> {
    if rs == [] then []
    else
      var last := rs[|rs| - 1].job;
      Partials(reader, rs[..|rs| - 1]) +
        if last.answer.Some? && Useful(reader, last.answer.value)
        then ["[" + last.prov + "]\n" + reader.trim(last.answer.value)] else []
  }

  /** An answer that is not blank and does not say that nothing was found. */
  predicate IsUseful(reader: Reader, r: Result) {
    && r.job.answer.Some?
    && reader.trim(r.job.answer.value) != "" && !reader.notFound(reader.trim(r.job.answer.value))
  }

  /** How many of the first n results are useful. */
  function UsefulBefore(reader: Reader, rs: seq<Result>, n: nat): nat
    requires n <= |rs|
  {
    if n == 0 then 0 else UsefulBefore(reader, rs, n - 1) + if IsUseful(reader, rs[n - 1]) then 1 else 0
  }

  lemma PartialsSnoc(reader: Reader, rs: seq<Result>, n: nat)
    requires n < |rs|
    ensures Partials(reader, rs[..n + 1]) == Partials(reader, rs[..n]) +
      if IsUseful(reader, rs[n])
      then ["[" + rs[n].job.prov + "]\n" + reader.trim(rs[n].job.answer.value)] else []
  {
    assert rs[..n + 1][..n] == rs[..n];
  }

  lemma {:induction false} UsefulRank(reader: Reader, rs: seq<Result>, n: nat, k: nat)
    requires k < n <= |rs| && IsUseful(reader, rs[k])
    ensures UsefulBefore(reader, rs, k) < UsefulBefore(reader, rs, n)
  {
    if k < n - 1 { UsefulRank(reader, rs, n - 1, k); }
  }

  lemma {:induction false} PartialsCount(reader: Reader, rs: seq<Result>, n: nat)
    requires n <= |rs|
    ensures |Partials(reader, rs[..n])| == UsefulBefore(reader, rs, n)
  {
    if n > 0 {
      PartialsCount(reader, rs, n - 1);
      PartialsSnoc(reader, rs, n - 1);
    }
  }

  /** The partials are the trimmed useful answers under their provenance, all of them
      and no others, in the order of the results. */
  lemma {:induction false} PartialsMean(reader: Reader, rs: seq<Result>, n: nat, k: nat)
    requires k < n <= |rs| && IsUseful(reader, rs[k])
    ensures |Partials(reader, rs[..n])| == UsefulBefore(reader, rs, n) > UsefulBefore(reader, rs, k)
    ensures Partials(reader, rs[..n])[UsefulBefore(reader, rs, k)] ==
      "[" + rs[k].job.prov + "]\n" + reader.trim(rs[k].job.answer.value)
  {
    PartialsCount(reader, rs, n);
    PartialsCount(reader, rs, n - 1);
    PartialsSnoc(reader, rs, n - 1);
    UsefulRank(reader, rs, n, k);
    if k < n - 1 { PartialsMean(reader, rs, n - 1, k); }
  }

  /** What is recorded of one result. */
  predicate RecordedAs(reader: Reader, r: Result, ord: int, s: Step) {
    && s.ord == ord && s.depth == r.job.depth && s.latency == r.latency
    && s.success == IsUseful(reader, r)
    && s.tokens == if r.job.answer.Some? then |r.job.answer.value| / 4 else 0
  }

  lemma StepRecords(reader: Reader, r: Result, ord: int)
    ensures RecordedAs(reader, r, ord, StepOf(reader, r, ord))
  {
  }

  /** The loop that follows the sort; `ord` counts on from the steps before it. */
  method CollectResults(reader: Reader, rs: seq<Result>, steps0: seq<Step>, ord0: int)
    returns (steps: seq<Step>, ord: int, partials: seq<string>)
    ensures ord == ord0 + |rs|
    ensures steps == steps0 + seq(|rs|, k requires 0 <= k < |rs| => StepOf(reader, rs[k], ord0 + k))
    ensures |steps| == |steps0| + |rs| && steps0 <= steps
    ensures forall k | 0 <= k < |rs| :: RecordedAs(reader, rs[k], ord0 + k, steps[|steps0| + k])
    ensures partials == Partials(reader, rs)
  {
    steps, ord, partials := steps0, ord0, [];
    for k := 0 to |rs|
      invariant ord == ord0 + k
      invariant steps == steps0 + seq(k, j requires 0 <= j < k => StepOf(reader, rs[j], ord0 + j))
      invariant partials == Partials(reader, rs[..k])
    {
      assert rs[..k + 1][..k] == rs[..k];
      match rs[k].job.answer {
        case Some(a) =>
          var trimmed := reader.trim(a);
          var useful := trimmed != "" && !reader.notFound(trimmed);
          steps := steps + [Step(ord, rs[k].job.depth, |a| / 4, useful, rs[k].latency)];
          if useful {
            partials := partials + ["[" + rs[k].job.prov + "]\n" + trimmed];
          }
        case None =>
          steps := steps + [Step(ord, rs[k].job.depth, 0, false, rs[k].latency)];
      }
      ord := ord + 1;
    }
    assert rs[..|rs|] == rs;
    forall k | 0 <= k < |rs| ensures RecordedAs(reader, rs[k], ord0 + k, steps[|steps0| + k]) {
      StepRecords(reader, rs[k], ord0 + k);
    }
  }

  lemma {:induction false} PartialsIgnoreLatency(reader: Reader, a: seq<Result>, b: seq<Result>)
    requires |a| == |b| && forall k | 0 <= k < |a| :: a[k].job == b[k].job
    ensures Partials(reader, a) == Partials(reader, b)
    decreases |a|
  {
    if a != [] {
      PartialsIgnoreLatency(reader, a[..|a| - 1], b[..|b| - 1]);
    }
  }

  /** Whatever order the fan-out completed in, the recorded steps agree with a
      sequential run up to latency, and the partial answers agree exactly. */
  lemma CompletionOrderIsInvisible(
    jobs: seq<Job>, requested: nat, events: seq<Event>, pools: seq<Pool>, sorted: seq<Result>,
    reader: Reader, latencies: seq<int>, ord: int)
    requires IsRun(jobs, requested, events, pools)
    requires var last := pools[|events|]; Drained(jobs, last) && multiset(sorted) == multiset(last.done)
    requires SortedByIndex(sorted) && |latencies| == |jobs|
    ensures |sorted| == |jobs|
    ensures Partials(reader, sorted) == Partials(reader, Sequential(jobs, latencies))
    ensures forall k | 0 <= k < |jobs| ::
      StepOf(reader, sorted[k], ord + k).(latency := latencies[k])
        == StepOf(reader, Sequential(jobs, latencies)[k], ord + k)
  {
    SortRestoresOrder(jobs, requested, events, pools, sorted);
    PartialsIgnoreLatency(reader, sorted, Sequential(jobs, latencies));
  }

  // ------------------------------------------------------ limits and progress

  /** Never more jobs are in flight than allowed, every job started is in flight or
      done, and each event starts or completes one job. */
  lemma {:induction false} RunCounts(jobs: seq<Job>, requested: nat, events: seq<Event>, pools: seq<Pool>, k: nat)
    requires IsRun(jobs, requested, events, pools) && k < |pools|
    ensures |pools[k].inFlight| <= Concurrency(requested) <= MAX_CONCURRENCY
    ensures |pools[k].inFlight| + |pools[k].done| == pools[k].next <= |jobs|
    ensures pools[k].next + |pools[k].done| == k
  {
    if k > 0 {
      RunCounts(jobs, requested, events, pools, k - 1);
      RunAccounts(jobs, requested, events, pools, k - 1);
    }
  }

  /** A job is started whenever one is left and fewer are in flight than requested, up
      to eight at a time and at least one. */
  lemma StartsWhenRoom(jobs: seq<Job>, requested: nat, p: Pool)
    ensures 1 <= requested <= 8 ==>
      (Enabled(jobs, requested, p, Start) <==> p.next < |jobs| && |p.inFlight| < requested)
    ensures requested == 0 ==> (Enabled(jobs, requested, p, Start) <==> p.next < |jobs| && p.inFlight == {})
    ensures requested > 8 ==> (Enabled(jobs, requested, p, Start) <==> p.next < |jobs| && |p.inFlight| < 8)
  {
  }

  /** No run has more than two events per job, it has that many exactly when every
      job is done, and until then it can always go on. */
  lemma RunsDrain(jobs: seq<Job>, requested: nat, events: seq<Event>, pools: seq<Pool>)
    requires IsRun(jobs, requested, events, pools)
    ensures |events| <= 2 * |jobs|
    ensures Drained(jobs, pools[|events|]) <==> |events| == 2 * |jobs|
    ensures !Drained(jobs, pools[|events|]) ==> exists e :: Enabled(jobs, requested, pools[|events|], e)
  {
    var p := pools[|events|];
    RunCounts(jobs, requested, events, pools, |events|);
    RunAccounts(jobs, requested, events, pools, |events|);
    if p.inFlight != {} {
      var i :| i in p.inFlight;
      assert Enabled(jobs, requested, p, Complete(i, 0));
    } else if p.next < |jobs| {
      assert Enabled(jobs, requested, p, Start);
    }
  }
}
