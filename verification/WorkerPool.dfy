/**
 The process collector's worker pool (internal/agent/collect/process.go): one goroutine per process,
 a counting semaphore, a buffered result channel, then a deduplicating loop. `reports[i]` is what
 the operating system calls of process `i` lead to: nothing, or one delta.
 */
module WorkerPool {
  import opened Wire

  /** A goroutine: blocked on the semaphore, in its OS calls, about to send, about to release, done. */
  datatype Worker = Waiting | Working | Sending | Releasing | Finished

  /** `sem` tokens are in the semaphore, `results` is what the channel buffers. */
  datatype Pool = Pool(workers: seq<Worker>, sem: nat, results: seq<SoftwareDelta>)

  datatype Step = Acquire(i: nat) | Query(i: nat) | Send(i: nat) | Release(i: nat)

  type Reports = seq<Option<SoftwareDelta>>

  function Initial(reports: Reports): Pool {
    Pool(seq(|reports|, _ => Waiting), 0, [])
  }

  /** A channel operation is enabled when it would not block. */
  predicate Enabled(reports: Reports, concurrency: nat, p: Pool, s: Step) {
    s.i < |p.workers| && s.i < |reports| &&
    match s
    case Acquire(i) => p.workers[i] == Waiting && p.sem < concurrency
    case Query(i) => p.workers[i] == Working
    case Send(i) => p.workers[i] == Sending && reports[i].Some? && |p.results| < |reports|
    case Release(i) => p.workers[i] == Releasing && p.sem > 0
  }

  function After(reports: Reports, concurrency: nat, p: Pool, s: Step): Pool
    requires Enabled(reports, concurrency, p, s)
  {
    match s
    case Acquire(i) => p.(workers := p.workers[i := Working], sem := p.sem + 1)
    case Query(i) => p.(workers := p.workers[i := if reports[i].Some? then Sending else Releasing])
    case Send(i) => p.(workers := p.workers[i := Releasing], results := p.results + [reports[i].value])
    case Release(i) => p.(workers := p.workers[i := Finished], sem := p.sem - 1)
  }

  // ---------------------------------------------------------------- counting workers

  predicate Holds(w: Worker) {
    w == Working || w == Sending || w == Releasing
  }

  predicate IsPast(w: Worker) {
    w == Releasing || w == Finished
  }

  function Weight(w: Worker): nat {
    match w
    case Waiting => 4
    case Working => 3
    case Sending => 2
    case Releasing => 1
    case Finished => 0
  }

  function Sum(ws: seq<Worker>, f: Worker -> nat): nat {
    if ws == [] then 0 else f(ws[0]) + Sum(ws[1..], f)
  }

  const HOLDING: Worker -> nat := (w: Worker) => if Holds(w) then 1 else 0
  const PAST: Worker -> nat := (w: Worker) => if IsPast(w) then 1 else 0
  const WEIGHT: Worker -> nat := (w: Worker) => Weight(w)

  lemma {:induction false} SumUpdate(ws: seq<Worker>, i: nat, w: Worker, f: Worker -> nat)
    requires i < |ws|
    ensures Sum(ws[i := w], f) + f(ws[i]) == Sum(ws, f) + f(w)
  {
    if i == 0 {
      assert ws[0 := w][1..] == ws[1..];
    } else {
      assert ws[i := w][1..] == ws[1..][i - 1 := w];
      SumUpdate(ws[1..], i - 1, w, f);
    }
  }

  lemma {:induction false} SumBounds(ws: seq<Worker>, i: nat, f: Worker -> nat)
    requires i < |ws| && forall w :: f(w) <= 1
    ensures f(ws[i]) <= Sum(ws, f) <= |ws| - 1 + f(ws[i])
  {
    if |ws| > 1 {
      SumBounds(ws[1..], if i == 0 then 0 else i - 1, f);
    }
  }

  lemma {:induction false} SumZero(ws: seq<Worker>, f: Worker -> nat)
    requires forall w <- ws :: f(w) == 0
    ensures Sum(ws, f) == 0
  {
    if ws != [] {
      assert ws[0] in ws;
      SumZero(ws[1..], f);
    }
  }

  // ---------------------------------------------------------------- invariant

  /** Worker `i` has delivered `d`. */
  predicate Delivered(reports: Reports, ws: seq<Worker>, i: nat, d: SoftwareDelta) {
    i < |ws| && i < |reports| && IsPast(ws[i]) && reports[i] == Some(d)
  }

  ghost predicate Inv(reports: Reports, concurrency: nat, p: Pool) {
    && |p.workers| == |reports|
    && (forall i :: 0 <= i < |reports| && p.workers[i] == Sending ==> reports[i].Some?)
    && p.sem == Sum(p.workers, HOLDING) <= concurrency
    && |p.results| <= Sum(p.workers, PAST)
    && forall d :: d in p.results <==> exists i :: Delivered(reports, p.workers, i, d)
  }

  lemma InitialInv(reports: Reports, concurrency: nat)
    ensures Inv(reports, concurrency, Initial(reports))
  {
    SumZero(Initial(reports).workers, HOLDING);
  }

  /** A worker's move changes what is delivered only by what it sends. */
  lemma DeliveredAfter(reports: Reports, concurrency: nat, p: Pool, s: Step, d: SoftwareDelta)
    requires Inv(reports, concurrency, p) && Enabled(reports, concurrency, p, s)
    ensures var p' := After(reports, concurrency, p, s);
            (exists i :: Delivered(reports, p'.workers, i, d)) <==>
            (exists i :: Delivered(reports, p.workers, i, d)) || (s.Send? && reports[s.i] == Some(d))
  {
    var p' := After(reports, concurrency, p, s);
    if i :| Delivered(reports, p.workers, i, d) {
      assert Delivered(reports, p'.workers, i, d);
    }
    if s.Send? && reports[s.i] == Some(d) {
      assert Delivered(reports, p'.workers, s.i, d);
    }
    if i :| Delivered(reports, p'.workers, i, d) {
      assert i != s.i ==> Delivered(reports, p.workers, i, d);
      assert i == s.i && s.Release? ==> Delivered(reports, p.workers, i, d);
    }
  }

  lemma StepKeepsInv(reports: Reports, concurrency: nat, p: Pool, s: Step)
    requires Inv(reports, concurrency, p) && Enabled(reports, concurrency, p, s)
    ensures Inv(reports, concurrency, After(reports, concurrency, p, s))
    ensures Sum(After(reports, concurrency, p, s).workers, WEIGHT) < Sum(p.workers, WEIGHT)
  {
    var p' := After(reports, concurrency, p, s);
    SumUpdate(p.workers, s.i, p'.workers[s.i], HOLDING);
    SumUpdate(p.workers, s.i, p'.workers[s.i], PAST);
    SumUpdate(p.workers, s.i, p'.workers[s.i], WEIGHT);
    forall d
      ensures d in p'.results <==> exists i :: Delivered(reports, p'.workers, i, d)
    {
      DeliveredAfter(reports, concurrency, p, s, d);
    }
  }

  /** Sending never blocks: the channel has room for every worker. */
  lemma SendNeverBlocks(reports: Reports, concurrency: nat, p: Pool, i: nat)
    requires Inv(reports, concurrency, p) && i < |p.workers| && p.workers[i] == Sending
    ensures Enabled(reports, concurrency, p, Send(i))
  {
    SumBounds(p.workers, i, PAST);
  }

  ghost predicate Complete(p: Pool) {
    forall w <- p.workers :: w == Finished
  }

  /**
   Progress, exactly: in a state the pool can reach, some step is possible if and only if some
   worker is unfinished and the concurrency is at least one.
   */
  lemma ProgressIff(reports: Reports, concurrency: nat, p: Pool)
    requires Inv(reports, concurrency, p)
    ensures (exists s :: Enabled(reports, concurrency, p, s)) <==> !Complete(p) && concurrency > 0
  {
    if !Complete(p) && concurrency > 0 {
      var s := SomeStep(reports, concurrency, p);
    }
    if s :| Enabled(reports, concurrency, p, s) {
      assert p.workers[s.i] in p.workers;
      SumBounds(p.workers, s.i, HOLDING);
    }
  }

  lemma SomeStep(reports: Reports, concurrency: nat, p: Pool) returns (s: Step)
    requires Inv(reports, concurrency, p) && !Complete(p) && concurrency > 0
    ensures Enabled(reports, concurrency, p, s)
  {
    if i :| 0 <= i < |p.workers| && Holds(p.workers[i]) {
      SumBounds(p.workers, i, HOLDING);
      if p.workers[i] == Sending {
        SendNeverBlocks(reports, concurrency, p, i);
        s := Send(i);
      } else {
        s := if p.workers[i] == Working then Query(i) else Release(i);
      }
    } else {
      forall w | w in p.workers ensures HOLDING(w) == 0 {
        var i :| 0 <= i < |p.workers| && p.workers[i] == w;
      }
      SumZero(p.workers, HOLDING);
      var w :| w in p.workers && w != Finished;
      var i :| 0 <= i < |p.workers| && p.workers[i] == w;
      s := Acquire(i);
    }
  }

  ghost predicate Run(reports: Reports, concurrency: nat, p: Pool, steps: seq<Step>)
    decreases |steps|
  {
    steps == [] || (Enabled(reports, concurrency, p, steps[0]) &&
                    Run(reports, concurrency, After(reports, concurrency, p, steps[0]), steps[1..]))
  }

  function Final(reports: Reports, concurrency: nat, p: Pool, steps: seq<Step>): Pool
    requires Run(reports, concurrency, p, steps)
    decreases |steps|
  {
    if steps == [] then p else Final(reports, concurrency, After(reports, concurrency, p, steps[0]), steps[1..])
  }

  /** Every run keeps the invariant and is no longer than the weight it started with. */
  lemma {:induction false} RunsAreFinite(reports: Reports, concurrency: nat, p: Pool, steps: seq<Step>)
    requires Inv(reports, concurrency, p) && Run(reports, concurrency, p, steps)
    ensures Inv(reports, concurrency, Final(reports, concurrency, p, steps))
    ensures |steps| + Sum(Final(reports, concurrency, p, steps).workers, WEIGHT) <= Sum(p.workers, WEIGHT)
    decreases |steps|
  {
    if steps != [] {
      StepKeepsInv(reports, concurrency, p, steps[0]);
      RunsAreFinite(reports, concurrency, After(reports, concurrency, p, steps[0]), steps[1..]);
    }
  }

  // ---------------------------------------------------------------- deduplication

  function PathOf(d: SoftwareDelta): string {
    StrVal(d.exePath)
  }

  /** The loop after the pool: keep the first result of each executable path. */
  function Dedupe(results: seq<SoftwareDelta>): seq<SoftwareDelta> {
    if results == [] then
      []
    else
      var init, d := results[..|results| - 1], results[|results| - 1];
      Dedupe(init) + if PathOf(d) != "" && PathOf(d) in Paths(init) then [] else [d]
  }

  function Paths(ds: seq<SoftwareDelta>): set<string> {
    set d <- ds :: PathOf(d)
  }

  lemma PathsSnoc(init: seq<SoftwareDelta>, d: SoftwareDelta)
    ensures Paths(init + [d]) == Paths(init) + {PathOf(d)}
  {
  }

  method DedupeResults(results: seq<SoftwareDelta>) returns (out: seq<SoftwareDelta>)
    ensures out == Dedupe(results)
  {
    out := [];
    var seen: set<string> := {};
    for i := 0 to |results|
      invariant out == Dedupe(results[..i]) && seen == Paths(results[..i])
    {
      var d := results[i];
      assert results[..i + 1] == results[..i] + [d] && results[..i + 1][..i] == results[..i];
      PathsSnoc(results[..i], d);
      var key := "";
      if d.exePath.Some? {
        key := d.exePath.value;
      }
      if key != "" && key in seen {
        continue;
      }
      seen := seen + {key};
      out := out + [d];
    }
    assert results[..|results|] == results;
  }

  ghost predicate DistinctPaths(ds: seq<SoftwareDelta>) {
    forall i, j :: 0 <= i < j < |ds| && PathOf(ds[i]) == PathOf(ds[j]) ==> PathOf(ds[i]) == ""
  }

  /** One entry per path, each of them a result, and no path is dropped. */
  lemma {:induction false} DedupeExact(results: seq<SoftwareDelta>)
    ensures forall d :: d in Dedupe(results) ==> d in results
    ensures Paths(Dedupe(results)) == Paths(results)
    ensures DistinctPaths(Dedupe(results))
  {
    if results != [] {
      var init, d := results[..|results| - 1], results[|results| - 1];
      assert results == init + [d];
      DedupeExact(init);
      PathsSnoc(init, d);
      if PathOf(d) == "" || PathOf(d) !in Paths(init) {
        PathsSnoc(Dedupe(init), d);
        DistinctSnoc(Dedupe(init), d);
      }
    }
  }

  lemma DistinctSnoc(init: seq<SoftwareDelta>, d: SoftwareDelta)
    requires DistinctPaths(init) && (PathOf(d) == "" || PathOf(d) !in Paths(init))
    ensures DistinctPaths(init + [d])
  {
  }

  /** The `i`-th result has no path, or is the first with its path. */
  predicate FirstOfPath(results: seq<SoftwareDelta>, i: nat)
    requires i < |results|
  {
    StrVal(results[i].exePath) == "" || forall j :: 0 <= j < i ==> StrVal(results[j].exePath) != StrVal(results[i].exePath)
  }

  lemma FirstsSnoc(init: seq<SoftwareDelta>, d: SoftwareDelta)
    ensures forall i :: 0 <= i < |init| ==> (FirstOfPath(init + [d], i) <==> FirstOfPath(init, i))
    ensures FirstOfPath(init + [d], |init|) <==> PathOf(d) == "" || PathOf(d) !in Paths(init)
  {
    var all := init + [d];
    assert all[|init|] == d && forall j :: 0 <= j < |init| ==> all[j] == init[j] && init[j] in init;
    if PathOf(d) in Paths(init) {
      var j :| 0 <= j < |init| && PathOf(init[j]) == PathOf(d);
      assert StrVal(all[j].exePath) == StrVal(d.exePath);
    }
  }

  /** What is kept, in the order of the results: exactly those without a path and the first of each path. */
  lemma {:induction false} DedupeKeepsFirst(results: seq<SoftwareDelta>) returns (at: seq<nat>)
    ensures forall m, n :: 0 <= m < n < |at| ==> at[m] < at[n]
    ensures |at| == |Dedupe(results)| && forall n :: 0 <= n < |at| ==> at[n] < |results| && Dedupe(results)[n] == results[at[n]]
    ensures forall i :: 0 <= i < |results| ==> (i in at <==> FirstOfPath(results, i))
  {
    if results == [] {
      at := [];
    } else {
      var n, init, d := |results| - 1, results[..|results| - 1], results[|results| - 1];
      assert results == init + [d];
      at := DedupeKeepsFirst(init);
      FirstsSnoc(init, d);
      hide FirstOfPath, PathOf, Paths;
      if FirstOfPath(results, n) {
        at := at + [n];
      }
    }
  }

  /**
   Safety and output of the pool: in every run at most `concurrency` workers hold the semaphore,
   and when all have finished the collector returns one entry for each distinct executable path
   reported, each entry being one of the reports.
   */
  lemma PoolOutput(reports: Reports, concurrency: nat, steps: seq<Step>)
    requires Run(reports, concurrency, Initial(reports), steps)
    requires forall r <- reports :: r.Some? ==> PathOf(r.value) != ""
    ensures var p := Final(reports, concurrency, Initial(reports), steps); var out := Dedupe(p.results);
            && Sum(p.workers, HOLDING) <= concurrency
            && |steps| <= 4 * |reports|
            && (forall i, j :: 0 <= i < j < |out| ==> PathOf(out[i]) != PathOf(out[j]))
            && (forall d :: d in out ==> Some(d) in reports)
            && (Complete(p) ==> forall d :: Some(d) in reports ==> PathOf(d) in Paths(out))
  {
    InitialInv(reports, concurrency);
    RunsAreFinite(reports, concurrency, Initial(reports), steps);
    WaitingWeight(reports);
    var p := Final(reports, concurrency, Initial(reports), steps);
    var out := Dedupe(p.results);
    DedupeExact(p.results);
    ResultsAreReports(reports, concurrency, p);
    forall i | 0 <= i < |out| ensures PathOf(out[i]) != "" {
      assert out[i] in p.results;
    }
    if Complete(p) {
      AllDelivered(reports, concurrency, p);
    }
  }

  lemma ResultsAreReports(reports: Reports, concurrency: nat, p: Pool)
    requires Inv(reports, concurrency, p)
    ensures forall d :: d in p.results ==> Some(d) in reports
  {
  }

  lemma AllDelivered(reports: Reports, concurrency: nat, p: Pool)
    requires Inv(reports, concurrency, p) && Complete(p)
    ensures forall d :: Some(d) in reports ==> d in p.results
  {
    forall d | Some(d) in reports ensures d in p.results {
      var i: nat :| i < |reports| && reports[i] == Some(d);
      assert p.workers[i] in p.workers;
      assert Delivered(reports, p.workers, i, d);
    }
  }

  lemma {:induction false} WaitingWeight(reports: Reports)
    ensures Sum(Initial(reports).workers, WEIGHT) == 4 * |reports|
  {
    if reports != [] {
      WaitingWeight(reports[1..]);
      assert Initial(reports).workers[1..] == Initial(reports[1..]).workers;
    }
  }
}
