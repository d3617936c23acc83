/** Handing out input splits: benchmarks/metis/lib/presplitter.c and the map workers and
    sampling of benchmarks/metis/lib/mr-sched.c.

    Workers draw tickets from a shared index with an atomic fetch-and-add.  Sampling maps a
    prefix of the splits; the main phase maps the rest.  Reduce workers draw their tasks in the
    same way, without sampling. */
module Presplitter {
  import opened Seqs

  /** Where a map worker is: about to draw, holding a ticket it has not compared yet, mapping
      a split, or finished with the ticket that told it so. */
  datatype Worker = Drawing | Holding(ticket: nat) | Mapping(ticket: nat) | Exited(ticket: nat)

  /** `idx` and `nsplits` of the presplitter; `sampling` until the sample is over.  `mapped` is
      the order in which splits were mapped, `rows` the order in which each worker mapped its own. */
  datatype State = State(idx: nat, nsplits: nat, nsplitsBak: nat, sampling: bool, workers: seq<Worker>,
                         mapped: seq<nat>, rows: seq<seq<nat>>)

  datatype Step = WorkerStep(w: nat) | DoneSample

  /** `mr_sample`: about five percent of the splits, at least one for each CPU if there are
      that many, at least one. */
  function SampleSize(ntotal: nat, ncpus: nat): (n: nat)
    requires ntotal > 0
    ensures 1 <= n <= ntotal && (n >= ncpus || n == ntotal) && 5 * ntotal < 100 * n + 100
    ensures n == 1 || n == ncpus || n == ntotal || 100 * n <= 5 * ntotal
  {
    var n := 5 * ntotal / 100;
    var n' := if n < ncpus then (if ncpus < ntotal then ncpus else ntotal) else n;
    if n' == 0 then 1 else n'
  }

  /** `presplitter_prep_sample`, then the workers of the sampling phase are started. */
  ghost predicate InitSampled(s: State, ntotal: nat, ncpus: nat) {
    && ntotal > 0 && ncpus > 0
    && s == State(0, SampleSize(ntotal, ncpus), ntotal, true, seq(ncpus, _ => Drawing), [], seq(ncpus, _ => []))
  }

  /** Without sampling there is only the main phase. */
  ghost predicate InitPlain(s: State, ntotal: nat, ncpus: nat) {
    ntotal > 0 && ncpus > 0 && s == State(0, ntotal, ntotal, false, seq(ncpus, _ => Drawing), [], seq(ncpus, _ => []))
  }

  predicate AllExited(s: State) {
    forall w :: 0 <= w < |s.workers| ==> s.workers[w].Exited?
  }

  /** The sample ends when all its workers have been joined. */
  predicate Enabled(s: State, step: Step) {
    match step
    case WorkerStep(w) => w < |s.workers| && !s.workers[w].Exited?
    case DoneSample => s.sampling && AllExited(s)
  }

  function Next(s: State, step: Step): State
    requires Enabled(s, step) && |s.rows| == |s.workers|
  {
    match step
    case WorkerStep(w) =>
      (match s.workers[w]
       case Drawing => s.(idx := s.idx + 1, workers := s.workers[w := Holding(s.idx)])
       case Holding(i) => s.(workers := s.workers[w := if i >= s.nsplits then Exited(i) else Mapping(i)])
       case Mapping(i) =>
         s.(workers := s.workers[w := Drawing], mapped := s.mapped + [i], rows := s.rows[w := s.rows[w] + [i]])
       case Exited(_) => s)
    case DoneSample =>
      s.(idx := s.nsplits, nsplits := s.nsplitsBak, sampling := false, workers := seq(|s.workers|, _ => Drawing))
  }

  // --------------------------------------------------------------- the invariant

  predicate Has(w: Worker, i: nat) { !w.Drawing? && w.ticket == i }

  /** How many workers have ticket `i`. */
  function Holders(ws: seq<Worker>, i: nat): nat {
    if ws == [] then 0 else Holders(ws[..|ws| - 1], i) + (if Has(ws[|ws| - 1], i) then 1 else 0)
  }

  /** A drawn ticket has become a mapped split, or one worker has it. */
  ghost predicate Accounted(s: State, i: nat) {
    && Count(s.mapped, i) + Holders(s.workers, i) == (if i < s.idx then 1 else 0)
    && (i >= s.nsplits ==> Count(s.mapped, i) == 0)
  }

  ghost predicate Inv(s: State) {
    && 0 < |s.workers| == |s.rows| && 0 < s.nsplits <= s.nsplitsBak && (!s.sampling ==> s.nsplits == s.nsplitsBak)
    && (forall i: nat :: Accounted(s, i))
    && forall w :: 0 <= w < |s.workers| ==>
         && (s.workers[w].Mapping? ==> s.workers[w].ticket < s.nsplits)
         && (s.workers[w].Exited? ==> s.workers[w].ticket >= s.nsplits)
  }

  lemma {:induction false} HoldersSet(ws: seq<Worker>, w: nat, x: Worker, i: nat)
    requires w < |ws|
    ensures Holders(ws[w := x], i) + (if Has(ws[w], i) then 1 else 0) == Holders(ws, i) + (if Has(x, i) then 1 else 0)
  {
    var n := |ws| - 1;
    if w == n {
      assert ws[w := x][..n] == ws[..n];
    } else {
      assert ws[w := x][..n] == ws[..n][w := x];
      HoldersSet(ws[..n], w, x, i);
    }
  }

  lemma {:induction false} NoHolder(ws: seq<Worker>, i: nat)
    requires forall w :: 0 <= w < |ws| ==> !Has(ws[w], i)
    ensures Holders(ws, i) == 0
  {
    if ws != [] {
      assert forall w :: 0 <= w < |ws| - 1 ==> ws[..|ws| - 1][w] == ws[w];
      NoHolder(ws[..|ws| - 1], i);
    }
  }

  lemma {:induction false} SomeHolder(ws: seq<Worker>, w: nat, i: nat)
    requires w < |ws| && Has(ws[w], i)
    ensures Holders(ws, i) > 0
  {
    if w < |ws| - 1 {
      SomeHolder(ws[..|ws| - 1], w, i);
    }
  }

  lemma InitInv(s: State, ntotal: nat, ncpus: nat)
    requires InitSampled(s, ntotal, ncpus) || InitPlain(s, ntotal, ncpus)
    ensures Inv(s)
  {
    forall i: nat ensures Accounted(s, i) {
      NoHolder(s.workers, i);
    }
  }

  /** When all workers of a phase have exited exactly the splits below `nsplits` are mapped. */
  lemma PhaseDone(s: State, i: nat)
    requires Inv(s) && AllExited(s)
    ensures s.nsplits < s.idx
    ensures Count(s.mapped, i) == if i < s.nsplits then 1 else 0
  {
    var t := s.workers[0].ticket;
    SomeHolder(s.workers, 0, t);
    assert Accounted(s, t);
    assert Accounted(s, i);
    if i < s.nsplits {
      NoHolder(s.workers, i);
    }
  }

  lemma StepInv(s: State, step: Step)
    requires Inv(s) && Enabled(s, step)
    ensures Inv(Next(s, step))
  {
    hide Count, Holders;
    var s' := Next(s, step);
    forall i: nat ensures Accounted(s', i) {
      assert Accounted(s, i);
      match step
      case WorkerStep(w) =>
        HoldersSet(s.workers, w, s'.workers[w], i);
        if s.workers[w].Mapping? {
          CountMore(s.mapped, s.workers[w].ticket, i);
        }
      case DoneSample =>
        PhaseDone(s, i);
        NoHolder(s'.workers, i);
    }
  }

  // ------------------------------------------------------------------- exactly once

  ghost predicate IsRun(run: seq<State>, steps: seq<Step>) {
    && |run| == |steps| + 1
    && forall t :: 0 <= t < |steps| ==>
         Enabled(run[t], steps[t]) && |run[t].rows| == |run[t].workers| && run[t + 1] == Next(run[t], steps[t])
  }

  lemma {:induction false} RunInv(run: seq<State>, steps: seq<Step>, ntotal: nat, ncpus: nat, t: nat)
    requires IsRun(run, steps) && t < |run|
    requires InitSampled(run[0], ntotal, ncpus) || InitPlain(run[0], ntotal, ncpus)
    ensures Inv(run[t]) && run[t].nsplitsBak == ntotal && |run[t].workers| == ncpus
  {
    if t == 0 {
      InitInv(run[0], ntotal, ncpus);
    } else {
      RunInv(run, steps, ntotal, ncpus, t - 1);
      StepInv(run[t - 1], steps[t - 1]);
    }
  }

  /** In every interleaving, with sampling or without, a finished run has mapped each of the
      ntotal splits exactly once. */
  lemma ExactlyOnce(run: seq<State>, steps: seq<Step>, ntotal: nat, ncpus: nat, i: nat)
    requires IsRun(run, steps)
    requires InitSampled(run[0], ntotal, ncpus) || InitPlain(run[0], ntotal, ncpus)
    requires AllExited(run[|run| - 1]) && !run[|run| - 1].sampling
    ensures Count(run[|run| - 1].mapped, i) == if i < ntotal then 1 else 0
  {
    RunInv(run, steps, ntotal, ncpus, |run| - 1);
    PhaseDone(run[|run| - 1], i);
  }

  /** No split is mapped twice, or out of range, at any time. */
  lemma NeverTwice(run: seq<State>, steps: seq<Step>, ntotal: nat, ncpus: nat, t: nat, i: nat)
    requires IsRun(run, steps) && t < |run|
    requires InitSampled(run[0], ntotal, ncpus) || InitPlain(run[0], ntotal, ncpus)
    ensures Count(run[t].mapped, i) <= (if i < ntotal then 1 else 0)
  {
    RunInv(run, steps, ntotal, ncpus, t);
    assert Accounted(run[t], i);
  }

  // ----------------------------------------------------------------- the overshoot

  ghost function SumCount(mapped: seq<nat>, n: nat): nat {
    if n == 0 then 0 else SumCount(mapped, n - 1) + Count<nat>(mapped, n - 1)
  }

  function SumHolders(ws: seq<Worker>, n: nat): nat {
    if n == 0 then 0 else SumHolders(ws, n - 1) + Holders(ws, n - 1)
  }

  /** Every drawn ticket is counted once. */
  lemma {:induction false} SumAll(s: State, n: nat)
    requires Inv(s) && n <= s.idx
    ensures SumCount(s.mapped, n) + SumHolders(s.workers, n) == n
  {
    if n > 0 {
      SumAll(s, n - 1);
      assert Accounted(s, n - 1);
    }
  }

  lemma {:induction false} SumMapped(s: State, n: nat)
    requires Inv(s) && AllExited(s)
    ensures SumCount(s.mapped, n) == if n <= s.nsplits then n else s.nsplits
  {
    if n > 0 {
      SumMapped(s, n - 1);
      PhaseDone(s, n - 1);
    }
  }

  lemma {:induction false} SumHoldersStep(ws: seq<Worker>, n: nat)
    requires ws != []
    ensures SumHolders(ws, n) == SumHolders(ws[..|ws| - 1], n) +
      (if !ws[|ws| - 1].Drawing? && ws[|ws| - 1].ticket < n then 1 else 0)
  {
    if n > 0 {
      SumHoldersStep(ws, n - 1);
    }
  }

  lemma {:induction false} SumExited(ws: seq<Worker>, n: nat)
    requires forall w :: 0 <= w < |ws| ==> ws[w].Exited? && ws[w].ticket < n
    ensures SumHolders(ws, n) == |ws|
  {
    if ws == [] {
      NoneSum(n);
    } else {
      assert forall w :: 0 <= w < |ws| - 1 ==> ws[..|ws| - 1][w] == ws[w];
      SumExited(ws[..|ws| - 1], n);
      SumHoldersStep(ws, n);
    }
  }

  lemma {:induction false} NoneSum(n: nat)
    ensures SumHolders([], n) == 0
  {
    if n > 0 {
      NoneSum(n - 1);
    }
  }

  /** When a phase ends the shared index has overshot by one for each worker. */
  lemma Overshoot(s: State)
    requires Inv(s) && AllExited(s)
    ensures s.idx == s.nsplits + |s.workers|
  {
    PhaseDone(s, 0);
    SumAll(s, s.idx);
    SumMapped(s, s.idx);
    forall w | 0 <= w < |s.workers| ensures s.workers[w].ticket < s.idx {
      SomeHolder(s.workers, w, s.workers[w].ticket);
      assert Accounted(s, s.workers[w].ticket);
    }
    SumExited(s.workers, s.idx);
  }

  // ------------------------------------------------------------------ who mapped what

  lemma {:induction false} CountFlatSet(rows: seq<seq<nat>>, w: nat, x: nat, i: nat)
    requires w < |rows|
    ensures Count(Flat(rows[w := rows[w] + [x]]), i) == Count(Flat(rows), i) + (if x == i then 1 else 0)
  {
    hide Count;
    var n := |rows| - 1;
    var rows' := rows[w := rows[w] + [x]];
    CountConcat(Flat(rows[..n]), rows[n], i);
    CountConcat(Flat(rows'[..n]), rows'[n], i);
    if w == n {
      assert rows'[..n] == rows[..n];
      CountMore(rows[n], x, i);
    } else {
      assert rows'[..n] == rows[..n][w := rows[..n][w] + [x]];
      CountFlatSet(rows[..n], w, x, i);
    }
  }

  lemma {:induction false} FlatNone(rows: seq<seq<nat>>)
    requires forall w :: 0 <= w < |rows| ==> rows[w] == []
    ensures Flat(rows) == []
  {
    if rows != [] {
      FlatNone(rows[..|rows| - 1]);
    }
  }

  /** Every mapped split was mapped by one worker. */
  lemma {:induction false} RowsHaveAll(run: seq<State>, steps: seq<Step>, ntotal: nat, ncpus: nat, t: nat, i: nat)
    requires IsRun(run, steps) && t < |run|
    requires InitSampled(run[0], ntotal, ncpus) || InitPlain(run[0], ntotal, ncpus)
    ensures |run[t].rows| == ncpus && Count(Flat(run[t].rows), i) == Count(run[t].mapped, i)
  {
    hide Count, Flat;
    if t == 0 {
      FlatNone(run[0].rows);
    } else {
      RowsHaveAll(run, steps, ntotal, ncpus, t - 1, i);
      RunInv(run, steps, ntotal, ncpus, t - 1);
      var s, step := run[t - 1], steps[t - 1];
      assert run[t] == Next(s, step);
      if step.WorkerStep? && s.workers[step.w].Mapping? {
        CountFlatSet(s.rows, step.w, s.workers[step.w].ticket, i);
        CountMore(s.mapped, s.workers[step.w].ticket, i);
      }
    }
  }

  /** The rows of the workers after a finished run over n splits. */
  ghost predicate Spread(rows: seq<seq<nat>>, n: nat, ncpus: nat) {
    exists run: seq<State>, steps: seq<Step> :: Finished(run, steps, n, ncpus) && rows == run[|run| - 1].rows
  }

  ghost predicate Finished(run: seq<State>, steps: seq<Step>, n: nat, ncpus: nat) {
    && IsRun(run, steps) && (InitSampled(run[0], n, ncpus) || InitPlain(run[0], n, ncpus))
    && AllExited(run[|run| - 1]) && !run[|run| - 1].sampling
  }

  /** Each split is in one row, once. */
  lemma SpreadOnce(rows: seq<seq<nat>>, n: nat, ncpus: nat, i: nat)
    requires Spread(rows, n, ncpus)
    ensures |rows| == ncpus && Count(Flat(rows), i) == if i < n then 1 else 0
  {
    hide Count, Flat;
    var run: seq<State>, steps: seq<Step> :| Finished(run, steps, n, ncpus) && rows == run[|run| - 1].rows;
    RowsHaveAll(run, steps, n, ncpus, |run| - 1, i);
    ExactlyOnce(run, steps, n, ncpus, i);
  }

  /** The order in which reduce workers have done n tasks. */
  ghost predicate HandedOut(order: seq<nat>, n: nat, ncpus: nat) {
    exists run: seq<State>, steps: seq<Step> ::
      Finished(run, steps, n, ncpus) && InitPlain(run[0], n, ncpus) && order == run[|run| - 1].mapped
  }

  lemma HandedOutOnce(order: seq<nat>, n: nat, ncpus: nat, i: nat)
    requires HandedOut(order, n, ncpus)
    ensures Count(order, i) == if i < n then 1 else 0
  {
    var run: seq<State>, steps: seq<Step> :|
      Finished(run, steps, n, ncpus) && InitPlain(run[0], n, ncpus) && order == run[|run| - 1].mapped;
    ExactlyOnce(run, steps, n, ncpus, i);
  }

  // ------------------------------------------------------------------- every run ends

  /** The steps a worker has left if it draws no further ticket below `nsplits`. */
  function WorkerLeft(w: Worker, nsplits: nat): nat {
    match w
    case Drawing => 2
    case Holding(i) => if i < nsplits then 4 else 1
    case Mapping(_) => 3
    case Exited(_) => 0
  }

  function AllLeft(ws: seq<Worker>, nsplits: nat): nat {
    if ws == [] then 0 else AllLeft(ws[..|ws| - 1], nsplits) + WorkerLeft(ws[|ws| - 1], nsplits)
  }

  /** The tickets below `nsplits` that are left: three steps each. */
  function TicketsLeft(s: State): nat { if s.idx < s.nsplits then 3 * (s.nsplits - s.idx) else 0 }

  /** What the main phase takes once the sample is over. */
  function PhaseLeft(s: State): int {
    if s.sampling then 1 + 3 * (s.nsplitsBak - s.nsplits) + 2 * |s.workers| else 0
  }

  function Budget(s: State): int { TicketsLeft(s) + AllLeft(s.workers, s.nsplits) + PhaseLeft(s) }

  lemma {:induction false} AllLeftSet(ws: seq<Worker>, w: nat, x: Worker, nsplits: nat)
    requires w < |ws|
    ensures AllLeft(ws[w := x], nsplits) == AllLeft(ws, nsplits) - WorkerLeft(ws[w], nsplits) + WorkerLeft(x, nsplits)
  {
    var n := |ws| - 1;
    if w == n {
      assert ws[w := x][..n] == ws[..n];
    } else {
      assert ws[w := x][..n] == ws[..n][w := x];
      AllLeftSet(ws[..n], w, x, nsplits);
    }
  }

  lemma {:induction false} AllLeftSame(ws: seq<Worker>, nsplits: nat, each: nat)
    requires forall w :: 0 <= w < |ws| ==> WorkerLeft(ws[w], nsplits) == each
    ensures AllLeft(ws, nsplits) == each * |ws|
  {
    if ws != [] {
      var n := |ws| - 1;
      AllLeftSame(ws[..n], nsplits, each);
      assert each * (n + 1) == each * n + each;
    }
  }

  /** Every step uses up part of a budget that is never negative. */
  lemma StepSpends(s: State, step: Step)
    requires Inv(s) && Enabled(s, step)
    ensures Inv(Next(s, step)) && 0 <= Budget(Next(s, step)) < Budget(s)
  {
    hide AllLeft;
    StepInv(s, step);
    var s' := Next(s, step);
    match step
    case WorkerStep(w) =>
      AllLeftSet(s.workers, w, s'.workers[w], s.nsplits);
    case DoneSample =>
      AllLeftSame(s.workers, s.nsplits, 0);
      AllLeftSame(s'.workers, s'.nsplits, 2);
  }

  lemma InitBudget(s: State, ntotal: nat, ncpus: nat)
    requires InitSampled(s, ntotal, ncpus) || InitPlain(s, ntotal, ncpus)
    ensures 0 <= Budget(s) <= 3 * ntotal + 4 * ncpus + 1
  {
    hide AllLeft;
    AllLeftSame(s.workers, s.nsplits, 2);
  }

  /** Every run ends, after at most three steps for each split and a few for each worker, and it
      can only end with every worker exited and every split mapped exactly once. */
  lemma {:induction false} EveryRunEnds(run: seq<State>, steps: seq<Step>, ntotal: nat, ncpus: nat, t: nat)
    requires IsRun(run, steps) && t < |run|
    requires InitSampled(run[0], ntotal, ncpus) || InitPlain(run[0], ntotal, ncpus)
    ensures 0 <= Budget(run[t]) <= 3 * ntotal + 4 * ncpus + 1 - t
    ensures (forall step :: !Enabled(run[t], step)) ==>
      && AllExited(run[t]) && !run[t].sampling
      && forall i: nat :: Count(run[t].mapped, i) == if i < ntotal then 1 else 0
  {
    hide Count, Budget, Inv;
    RunInv(run, steps, ntotal, ncpus, t);
    if t == 0 {
      InitBudget(run[0], ntotal, ncpus);
    } else {
      EveryRunEnds(run, steps, ntotal, ncpus, t - 1);
      RunInv(run, steps, ntotal, ncpus, t - 1);
      StepSpends(run[t - 1], steps[t - 1]);
    }
    if forall step :: !Enabled(run[t], step) {
      AllMapped(run[t]);
    }
  }

  lemma AllMapped(s: State)
    requires Inv(s) && forall step :: !Enabled(s, step)
    ensures AllExited(s) && !s.sampling && s.nsplits == s.nsplitsBak
    ensures forall i: nat :: Count(s.mapped, i) == if i < s.nsplits then 1 else 0
  {
    hide Count;
    forall w: nat | w < |s.workers| ensures s.workers[w].Exited? {
      assert !Enabled(s, WorkerStep(w));
    }
    assert !Enabled(s, DoneSample);
    forall i: nat ensures Count(s.mapped, i) == if i < s.nsplits then 1 else 0 {
      PhaseDone(s, i);
    }
  }
}
