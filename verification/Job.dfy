/** A whole run of the scheduler with reduce tasks: benchmarks/metis/lib/mr-sched.c:60-234.

    Workers run in parallel.  In a map phase each works on a row of its own, so the phase is a
    sequence of steps of the workers in any order.  In the reduce phase they draw columns from a
    shared counter, so the phase does the columns in an order that the counter allows. */
module Job {
  import opened Common
  import opened Seqs
  import opened Values
  import opened Reduce
  import opened Store
  import Presplitter

  /** A worker sets its row up, or its map function emits a pair. */
  datatype Step = Start(row: nat) | Emit(row: nat, key: Key, val: Val)

  ghost function Started(steps: seq<Step>): (s: set<nat>) {
    if steps == [] then {} else
    var last := steps[|steps| - 1];
    Started(steps[..|steps| - 1]) + (if last.Start? then {last.row} else {})
  }

  /** In a phase every worker starts once, before it emits. */
  ghost predicate Legal(steps: seq<Step>, rows: nat) {
    steps == [] ||
    var front, last := steps[..|steps| - 1], steps[|steps| - 1];
    Legal(front, rows) && last.row < rows && (last.Start? <==> last.row !in Started(front))
  }

  ghost predicate AllStart(steps: seq<Step>, rows: nat) {
    Legal(steps, rows) && forall r: nat :: r < rows ==> r in Started(steps)
  }

  /** What one row emits, with the hash of each key. */
  ghost function Emitted(steps: seq<Step>, h: Key -> nat, row: nat): seq<Pair> {
    if steps == [] then [] else
    var front, last := Emitted(steps[..|steps| - 1], h, row), steps[|steps| - 1];
    if last.Emit? && last.row == row then front + [Pair(last.key, last.val, h(last.key))] else front
  }

  ghost predicate LogGrows(log: seq<seq<Pair>>, log': seq<seq<Pair>>, steps: seq<Step>, h: Key -> nat) {
    |log'| == |log| && forall r :: 0 <= r < |log| ==> log'[r] == log[r] + Emitted(steps, h, r)
  }

  lemma StepTaken(log: seq<seq<Pair>>, log': seq<seq<Pair>>, steps: seq<Step>, k: nat, h: Key -> nat)
    requires k < |steps| && LogGrows(log, log', steps[..k], h) && steps[k].row < |log|
    ensures steps[k].Start? ==> LogGrows(log, log', steps[..k + 1], h)
    ensures steps[k].Emit? ==>
      var r, pair := steps[k].row, Pair(steps[k].key, steps[k].val, h(steps[k].key));
      LogGrows(log, log'[r := log'[r] + [pair]], steps[..k + 1], h)
  {
    assert steps[..k + 1][..k] == steps[..k];
    forall r | 0 <= r < |log| && steps[k].Emit? && r == steps[k].row
      ensures log'[r] + [Pair(steps[k].key, steps[k].val, h(steps[k].key))] == log[r] + Emitted(steps[..k + 1], h, r)
    {
    }
  }

  lemma {:induction false} LegalAt(steps: seq<Step>, rows: nat, k: nat)
    requires Legal(steps, rows) && k < |steps|
    ensures steps[k].row < rows && (steps[k].Start? <==> steps[k].row !in Started(steps[..k]))
    ensures Started(steps[..k + 1]) == Started(steps[..k]) + (if steps[k].Start? then {steps[k].row} else {})
    decreases |steps|
  {
    assert steps[..k + 1][..k] == steps[..k];
    var n := |steps| - 1;
    if k < n {
      LegalAt(steps[..n], rows, k);
      assert steps[..n][..k] == steps[..k];
    }
  }

  /** A map phase: every pair is put once, and the rows set up lose their backup. */
  method MapPhase(store: KvStore, steps: seq<Step>, hash: Key -> nat)
    requires store.Valid() && store.hash == hash && Legal(steps, |store.log|)
    requires store.pending == if store.hasBackup then Upto(|store.log|) else {}
    modifies store
    ensures store.Valid() && LogGrows(old(store.log), store.log, steps, hash)
    ensures store.pending == if store.hasBackup then Upto(|store.log|) - Started(steps) else {}
    ensures store.mapper.cols == old(store.mapper.cols) && store.hasBackup == old(store.hasBackup)
  {
    ghost var log := store.log;
    for k := 0 to |steps|
      invariant store.Valid() && |store.log| == |log| && LogGrows(log, store.log, steps[..k], hash)
      invariant store.pending == if store.hasBackup then Upto(|log|) - Started(steps[..k]) else {}
      invariant store.mapper.cols == old(store.mapper.cols) && store.hasBackup == old(store.hasBackup)
    {
      LegalAt(steps, |log|, k);
      StepTaken(log, store.log, steps, k, hash);
      match steps[k] {
        case Start(row) => store.MapWorkerInit(row);
        case Emit(row, key, val) => store.MapPut(row, key, val, hash(key));
      }
    }
    assert steps[..|steps|] == steps;
  }

  /** The pairs one row emits in a run: in the sampling phase, if there is one, then in the map phase. */
  ghost function RowLog(sample: Option<seq<Step>>, steps: seq<Step>, h: Key -> nat, row: nat): seq<Pair> {
    (if sample.Some? then Emitted(sample.value, h, row) else []) + Emitted(steps, h, row)
  }

  /** The pairs of a run, row by row. */
  ghost function RunLog(sample: Option<seq<Step>>, steps: seq<Step>, h: Key -> nat, rows: nat): (log: seq<seq<Pair>>)
    ensures |log| == rows && forall r :: 0 <= r < rows ==> log[r] == RowLog(sample, steps, h, r)
  {
    if rows == 0 then [] else RunLog(sample, steps, h, rows - 1) + [RowLog(sample, steps, h, rows - 1)]
  }

  /** `mr_run_scheduler` up to the end of the reduce phase: with sampling if the number of tasks is
      not given, each column is reduced over all pairs of both phases. */
  method Run(app: App, hash: Key -> nat, rows: nat, sampleTasks: nat, sample: Option<seq<Step>>, tasks: nat,
             steps: seq<Step>,
             order: seq<nat>)
    returns (outs: seq<seq<Group>>)
    requires sampleTasks > 0 && tasks > 0 && AllStart(steps, rows) && (sample.Some? ==> AllStart(sample.value, rows))
    requires Presplitter.HandedOut(order, tasks, rows)
    ensures |outs| == tasks
    ensures forall c :: 0 <= c < tasks ==> ColumnOutput(app, RunLog(sample, steps, hash, rows), c, tasks, outs[c])
  {
    hide ColumnOutput, Emitted, Legal, Hashed, RowLog, Presplitter.HandedOut;
    var store := new KvStore(app, hash, rows);
    ghost var empty := store.log;
    if sample.Some? {
      store.MbksInit(rows, sampleTasks);
      MapPhase(store, sample.value, hash);
      store.MbksBak();
    }
    ghost var sampled := store.log;
    store.MbksInit(rows, tasks);
    MapPhase(store, steps, hash);
    BothPhases(empty, sampled, store.log, sample, steps, hash);
    outs := ReducePhase(store, order, rows);
  }

  lemma BothPhases(empty: seq<seq<Pair>>, sampled: seq<seq<Pair>>, log: seq<seq<Pair>>, sample: Option<seq<Step>>,
                   steps: seq<Step>, h: Key -> nat)
    requires forall r :: 0 <= r < |empty| ==> empty[r] == []
    requires if sample.Some? then LogGrows(empty, sampled, sample.value, h) else sampled == empty
    requires LogGrows(sampled, log, steps, h)
    ensures log == RunLog(sample, steps, h, |empty|)
  {
    hide Emitted, RunLog;
    forall r | 0 <= r < |log| ensures log[r] == RowLog(sample, steps, h, r) {
      assert sample.Some? ==> sampled[r] == [] + Emitted(sample.value, h, r) == Emitted(sample.value, h, r);
    }
  }

  lemma {:induction false} EmittedHashed(steps: seq<Step>, h: Key -> nat, row: nat)
    ensures Hashed(Emitted(steps, h, row), h)
  {
    if steps != [] {
      EmittedHashed(steps[..|steps| - 1], h, row);
    }
  }

  /** Equal keys of a run have equal hashes, as `KeyReduced` asks. */
  lemma RunHashed(sample: Option<seq<Step>>, steps: seq<Step>, h: Key -> nat, rows: nat)
    ensures forall r :: 0 <= r < rows ==> Hashed(RunLog(sample, steps, h, rows)[r], h)
  {
    forall r | 0 <= r < rows ensures Hashed(RunLog(sample, steps, h, rows)[r], h) {
      EmittedHashed(steps, h, r);
      if sample.Some? {
        EmittedHashed(sample.value, h, r);
      }
    }
  }

  /** The reduce phase: in whatever order the workers draw the columns, each is reduced once. */
  method ReducePhase(store: KvStore, order: seq<nat>, ghost ncpus: nat) returns (outs: seq<seq<Group>>)
    requires store.Valid() && store.pending == {} && Presplitter.HandedOut(order, store.mapper.cols, ncpus)
    ensures |outs| == store.mapper.cols
    ensures forall c :: 0 <= c < |outs| ==> ColumnOutput(store.app, store.log, c, |outs|, outs[c])
  {
    hide ColumnOutput, Presplitter.HandedOut;
    var cols := store.mapper.cols;
    outs := seq(cols, _ => []);
    for t := 0 to |order|
      invariant |outs| == cols
      invariant forall c :: 0 <= c < cols && c in order[..t] ==> ColumnOutput(store.app, store.log, c, cols, outs[c])
    {
      IsColumn(order, cols, ncpus, t);
      var out := store.DoReduceTask(order[t]);
      outs := outs[order[t] := out];
      assert order[..t + 1] == order[..t] + [order[t]];
    }
    forall c: nat | c < cols ensures c in order[..|order|] {
      EveryColumn(order, cols, ncpus, c);
    }
  }

  lemma IsColumn(order: seq<nat>, cols: nat, ncpus: nat, t: nat)
    requires Presplitter.HandedOut(order, cols, ncpus) && t < |order|
    ensures order[t] < cols && order[t] !in order[..t]
  {
    hide Presplitter.HandedOut;
    var c := order[t];
    Presplitter.HandedOutOnce(order, cols, ncpus, c);
    CountSome(order, c);
    CountSome(order[..t], c);
    assert order == (order[..t] + [c]) + order[t + 1..];
    CountConcat(order[..t] + [c], order[t + 1..], c);
    CountMore(order[..t], c, c);
  }

  lemma EveryColumn(order: seq<nat>, cols: nat, ncpus: nat, c: nat)
    requires Presplitter.HandedOut(order, cols, ncpus) && c < cols
    ensures c in order[..|order|]
  {
    hide Presplitter.HandedOut;
    Presplitter.HandedOutOnce(order, cols, ncpus, c);
    CountSome(order, c);
    assert order[..|order|] == order;
  }

  /** Every key that was emitted is reduced once, in the column of its hash, to the fold of all
      the values that were emitted for it; no other key is. */
  lemma KeyReduced(app: App, op: (Val, Val) -> Val, log: seq<seq<Pair>>, h: Key -> nat, cols: nat,
                   outs: seq<seq<Group>>, k: Key)
    requires cols > 0 && (forall r :: 0 <= r < |log| ==> Hashed(log[r], h))
    requires Commutative(op) && KeepsFold(app, op)
    requires |outs| == cols && forall c :: 0 <= c < cols ==> ColumnOutput(app, log, c, cols, outs[c])
    ensures forall c :: 0 <= c < cols ==> (k in OutKeys(outs[c]) <==> h(k) % cols == c && ValuesOf(Flat(log), k) != [])
    ensures forall c, j :: 0 <= c < cols && 0 <= j < |outs[c]| && outs[c][j].key == k ==>
      && |outs[c][j].vals| > 0 && |ValuesOf(Flat(log), k)| > 0
      && (app.UsesVm() ==> |outs[c][j].vals| == 1)
      && Fold(op, outs[c][j].vals) == Fold(op, ValuesOf(Flat(log), k))
  {
    forall c | 0 <= c < cols ensures k in OutKeys(outs[c]) <==> h(k) % cols == c && ValuesOf(Flat(log), k) != [] {
      ReducedOnce(app, log, h, c, cols, outs[c], k);
    }
    forall c, j | 0 <= c < cols && 0 <= j < |outs[c]| && outs[c][j].key == k
      ensures |outs[c][j].vals| > 0 && |ValuesOf(Flat(log), k)| > 0
      ensures app.UsesVm() ==> |outs[c][j].vals| == 1
      ensures Fold(op, outs[c][j].vals) == Fold(op, ValuesOf(Flat(log), k))
    {
      ReduceRun(app, op, log, h, c, cols, outs[c], j);
    }
  }
}
