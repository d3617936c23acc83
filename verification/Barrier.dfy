/** The spin barrier of benchmarks/metis/lib/psrs.c and the phases it separates.

    Each read or write of a shared variable is one step; a spinning read that does not get
    through is no step.  CPU 0 is the main CPU.  Any number of CPUs call the barrier any
    number of times, in any interleaving. */
module Barrier {

  /** Where a CPU other than the main one is in `psrs_barrier`. */
  datatype WorkerPc = Out | AwaitStart | SetReady | AwaitStop | ClearReady

  /** Where the main CPU is; the number is the CPU it waits for. */
  datatype MainPc = MainOut | SetStart | AwaitReady(i: nat) | SetStop | AwaitClear(i: nat)

  /** `start` is `status == START`.  `entered` and `left` count the rounds a CPU has begun and
      ended.  Between its first and its second call (`copied`) a CPU copies its chunk; CPU 1
      frees the input after its second. */
  datatype State = State(start: bool, ready: seq<bool>, main: MainPc, pc: seq<WorkerPc>,
                         entered: seq<nat>, left: seq<nat>, copied: set<nat>, freed: bool)

  const FREE_LCPU: nat := 1

  ghost predicate Init(s: State, n: nat) {
    && n > 0 && !s.start && |s.ready| == |s.pc| == |s.entered| == |s.left| == n
    && s.main == MainOut && s.copied == {} && !s.freed
    && forall i :: 0 <= i < n ==> !s.ready[i] && s.pc[i] == Out && s.entered[i] == 0 && s.left[i] == 0
  }

  datatype Step = MainStep | WorkerStep(i: nat) | Copy(i: nat) | Free

  /** A CPU may call the barrier again; before its second call it must have copied its chunk. */
  predicate MayEnter(s: State, i: nat)
    requires i < |s.entered|
  {
    s.entered[i] == 1 ==> i in s.copied
  }

  predicate Sized(s: State) {
    |s.ready| == |s.pc| == |s.entered| == |s.left| > 0
  }

  predicate Enabled(s: State, step: Step)
    requires Sized(s)
  {
    match step
    case MainStep =>
      (match s.main
       case MainOut => MayEnter(s, 0)
       case SetStart => true
       case AwaitReady(i) => i >= |s.ready| || s.ready[i]
       case SetStop => true
       case AwaitClear(i) => i >= |s.ready| || !s.ready[i])
    case WorkerStep(i) =>
      0 < i < |s.pc| &&
      (match s.pc[i]
       case Out => MayEnter(s, i)
       case AwaitStart => s.start
       case SetReady => true
       case AwaitStop => !s.start
       case ClearReady => true)
    case Copy(i) =>
      i < |s.pc| && (if i == 0 then s.main == MainOut else s.pc[i] == Out) && s.left[i] == 1 && i !in s.copied
    case Free =>
      FREE_LCPU < |s.pc| && s.pc[FREE_LCPU] == Out && s.left[FREE_LCPU] == 2 && !s.freed
  }

  /** One step.  A CPU begins a round when it calls the barrier and ends it when it returns. */
  function Next(s: State, step: Step): State
    requires Sized(s) && Enabled(s, step)
  {
    match step
    case MainStep =>
      (match s.main
       case MainOut => s.(main := SetStart, entered := s.entered[0 := s.entered[0] + 1])
       case SetStart => s.(start := true, main := AwaitReady(1))
       case AwaitReady(i) => if i >= |s.ready| then s.(main := SetStop) else s.(main := AwaitReady(i + 1))
       case SetStop => s.(start := false, main := AwaitClear(1))
       case AwaitClear(i) =>
         if i >= |s.ready| then s.(main := MainOut, left := s.left[0 := s.left[0] + 1])
         else s.(main := AwaitClear(i + 1)))
    case WorkerStep(i) =>
      (match s.pc[i]
       case Out => s.(pc := s.pc[i := AwaitStart], entered := s.entered[i := s.entered[i] + 1])
       case AwaitStart => s.(pc := s.pc[i := SetReady])
       case SetReady => s.(ready := s.ready[i := true], pc := s.pc[i := AwaitStop])
       case AwaitStop => s.(pc := s.pc[i := ClearReady])
       case ClearReady => s.(ready := s.ready[i := false], pc := s.pc[i := Out], left := s.left[i := s.left[i] + 1]))
    case Copy(i) => s.(copied := s.copied + {i})
    case Free => s.(freed := true)
  }

  // --------------------------------------------------------------- the invariant

  /** Where worker `i` can be, given where the main CPU is in its round r. */
  ghost predicate WorkerOk(s: State, i: nat)
    requires Sized(s) && i < |s.pc|
  {
    var r := s.left[0];
    && s.entered[i] == s.left[i] + (if s.pc[i] == Out then 0 else 1)
    && (s.ready[i] <==> s.pc[i] == AwaitStop || s.pc[i] == ClearReady)
    && match s.main
       case MainOut => s.left[i] == r && (s.pc[i] == Out || s.pc[i] == AwaitStart)
       case SetStart => s.left[i] == r && (s.pc[i] == Out || s.pc[i] == AwaitStart)
       case AwaitReady(k) => s.left[i] == r && s.pc[i] != ClearReady && (i < k ==> s.pc[i] == AwaitStop)
       case SetStop => s.left[i] == r && s.pc[i] == AwaitStop
       case AwaitClear(k) =>
         || (s.left[i] == r && (s.pc[i] == AwaitStop || s.pc[i] == ClearReady) && i >= k)
         || (s.left[i] == r + 1 && (s.pc[i] == Out || s.pc[i] == AwaitStart))
  }

  ghost predicate Inv(s: State) {
    && Sized(s)
    && s.entered[0] == s.left[0] + (if s.main == MainOut then 0 else 1)
    && (s.start <==> s.main.AwaitReady? || s.main.SetStop?)
    && (s.main.AwaitReady? || s.main.AwaitClear? ==> 1 <= s.main.i <= |s.pc|)
    && (forall i: nat :: 0 < i < |s.pc| ==> WorkerOk(s, i))
    && (forall i: nat :: i < |s.pc| && s.entered[i] >= 2 ==> i in s.copied)
    && (s.freed ==> FREE_LCPU < |s.pc| && s.left[FREE_LCPU] >= 2)
  }

  lemma InitInv(s: State, n: nat)
    requires Init(s, n)
    ensures Inv(s)
  {
  }

  lemma StepInv(s: State, step: Step)
    requires Inv(s) && Enabled(s, step)
    ensures Inv(Next(s, step))
  {
    match step
    case MainStep => MainInv(s);
    case WorkerStep(i) => WorkerInv(s, i);
    case Copy(i) =>
      forall j: nat | 0 < j < |s.pc| ensures WorkerOk(Next(s, step), j) {
        assert WorkerOk(s, j);
      }
    case Free =>
      forall j: nat | 0 < j < |s.pc| ensures WorkerOk(Next(s, step), j) {
        assert WorkerOk(s, j);
      }
  }

  lemma MainInv(s: State)
    requires Inv(s) && Enabled(s, MainStep)
    ensures Inv(Next(s, MainStep))
  {
    forall j: nat | 0 < j < |s.pc| ensures WorkerOk(Next(s, MainStep), j) {
      MainWorker(s, j);
    }
  }

  lemma MainWorker(s: State, j: nat)
    requires Inv(s) && Enabled(s, MainStep) && 0 < j < |s.pc|
    ensures WorkerOk(Next(s, MainStep), j)
  {
    assert WorkerOk(s, j);
  }

  lemma WorkerInv(s: State, i: nat)
    requires Inv(s) && Enabled(s, WorkerStep(i))
    ensures Inv(Next(s, WorkerStep(i)))
  {
    var s' := Next(s, WorkerStep(i));
    assert WorkerOk(s, i);
    forall j: nat | 0 < j < |s.pc| ensures WorkerOk(s', j) {
      assert WorkerOk(s, j);
    }
  }

  /** No CPU has ended a round that another has not begun. */
  lemma NoEarlyExit(s: State, i: nat, j: nat)
    requires Inv(s) && i < |s.pc| && j < |s.pc|
    ensures s.left[i] <= s.entered[j]
  {
    assert i > 0 ==> WorkerOk(s, i);
    assert j > 0 ==> WorkerOk(s, j);
  }

  /** Once the input has been freed every CPU has copied its chunk, and none copies any more. */
  lemma FreedAfterCopies(s: State, i: nat)
    requires Inv(s) && s.freed && i < |s.pc|
    ensures i in s.copied && !Enabled(s, Copy(i))
  {
    NoEarlyExit(s, FREE_LCPU, i);
  }

  // ------------------------------------------------------------- runs and progress

  ghost predicate IsRun(run: seq<State>, steps: seq<Step>) {
    && |run| == |steps| + 1
    && (forall t :: 0 <= t < |run| ==> Sized(run[t]))
    && forall t :: 0 <= t < |steps| ==> Enabled(run[t], steps[t]) && run[t + 1] == Next(run[t], steps[t])
  }

  /** For every number of CPUs and every interleaving: no CPU leaves a round before all have
      entered it, and the input is never freed before every CPU has copied its chunk. */
  lemma {:induction false} BarrierHolds(run: seq<State>, steps: seq<Step>, n: nat, t: nat)
    requires IsRun(run, steps) && Init(run[0], n) && t < |run|
    ensures Inv(run[t]) && |run[t].pc| == n
    ensures forall i: nat, j: nat :: i < n && j < n ==> run[t].left[i] <= run[t].entered[j]
    ensures run[t].freed ==> forall i: nat :: i < n ==> i in run[t].copied
  {
    if t == 0 {
      InitInv(run[0], n);
    } else {
      BarrierHolds(run, steps, n, t - 1);
      StepInv(run[t - 1], steps[t - 1]);
    }
    forall i: nat, j: nat | i < n && j < n ensures run[t].left[i] <= run[t].entered[j] {
      NoEarlyExit(run[t], i, j);
    }
    if run[t].freed {
      forall i: nat | i < n ensures i in run[t].copied {
        FreedAfterCopies(run[t], i);
      }
    }
  }

  // -------------------------------------------------- nothing ever gets stuck

  /** A CPU that has called the barrier `calls` times does not call it again. */
  predicate EnabledFor(s: State, step: Step, calls: nat)
    requires Sized(s)
  {
    && Enabled(s, step)
    && (step.MainStep? && s.main == MainOut ==> s.entered[0] < calls)
    && (step.WorkerStep? && s.pc[step.i] == Out ==> s.entered[step.i] < calls)
  }

  ghost predicate AllDone(s: State, calls: nat)
    requires Sized(s)
  {
    s.main == MainOut && forall i: nat :: i < |s.pc| ==> s.left[i] == calls
  }

  ghost predicate Within(s: State, calls: nat)
    requires Sized(s)
  {
    forall i: nat :: i < |s.pc| ==> s.entered[i] <= calls
  }

  lemma SameRound(s: State)
    requires Inv(s) && s.main == MainOut
    ensures forall i: nat :: i < |s.pc| ==> s.left[i] == s.entered[0]
  {
    forall i: nat | 0 < i < |s.pc| ensures s.left[i] == s.entered[0] {
      assert WorkerOk(s, i);
    }
  }

  /** While not every CPU has returned from all its calls, some CPU can move. */
  lemma NotStuck(s: State, calls: nat) returns (step: Step)
    requires Inv(s) && Within(s, calls) && !AllDone(s, calls)
    ensures EnabledFor(s, step, calls)
  {
    match s.main
    case MainOut =>
      SameRound(s);
      step := if MayEnter(s, 0) then MainStep else Copy(0);
    case SetStart => step := MainStep;
    case SetStop => step := MainStep;
    case AwaitReady(k) =>
      if k >= |s.ready| || s.ready[k] {
        step := MainStep;
      } else {
        assert WorkerOk(s, k);
        assert s.entered[0] <= calls;
        step := if s.pc[k] != Out || MayEnter(s, k) then WorkerStep(k) else Copy(k);
      }
    case AwaitClear(k) =>
      if k >= |s.ready| || !s.ready[k] {
        step := MainStep;
      } else {
        assert WorkerOk(s, k);
        step := WorkerStep(k);
      }
  }

  function MainAt(m: MainPc, n: nat): int {
    match m
    case MainOut => 0
    case SetStart => 1
    case AwaitReady(i) => 1 + i
    case SetStop => n + 2
    case AwaitClear(i) => n + 2 + i
  }

  function WorkerAt(pc: WorkerPc): nat {
    match pc case Out => 0 case AwaitStart => 1 case SetReady => 2 case AwaitStop => 3 case ClearReady => 4
  }

  /** Steps CPU `i` can still take. */
  function Left(s: State, calls: nat, i: nat): int
    requires Sized(s) && i < |s.pc|
  {
    var n := |s.pc|;
    (if i in s.copied then 0 else 1) +
    (if i == 0 then (calls - s.left[0]) * (2 * n + 3) - MainAt(s.main, n)
     else (calls - s.left[i]) * 5 - WorkerAt(s.pc[i]))
  }

  /** Steps the first `k` CPUs can still take. */
  function LeftUpTo(s: State, calls: nat, k: nat): int
    requires Sized(s) && k <= |s.pc|
  {
    if k == 0 then 0 else LeftUpTo(s, calls, k - 1) + Left(s, calls, k - 1)
  }

  function Budget(s: State, calls: nat): int
    requires Sized(s)
  {
    LeftUpTo(s, calls, |s.pc|) + (if s.freed then 0 else 1)
  }

  lemma LeftNatural(s: State, calls: nat, i: nat)
    requires Inv(s) && Within(s, calls) && i < |s.pc|
    ensures Left(s, calls, i) >= 0
  {
    assert s.entered[i] <= calls;
    if i == 0 {
      if s.main != MainOut {
        assert (calls - s.left[0]) * (2 * |s.pc| + 3) >= 2 * |s.pc| + 3;
      }
    } else {
      assert WorkerOk(s, i);
    }
  }

  lemma {:induction false} BudgetNatural(s: State, calls: nat, k: nat)
    requires Inv(s) && Within(s, calls) && k <= |s.pc|
    ensures LeftUpTo(s, calls, k) >= 0
  {
    if k > 0 {
      BudgetNatural(s, calls, k - 1);
      LeftNatural(s, calls, k - 1);
    }
  }

  /** The CPU that takes a step has fewer left, the others as many as before. */
  lemma StepLeft(s: State, step: Step, calls: nat, i: nat)
    requires Inv(s) && EnabledFor(s, step, calls) && i < |s.pc|
    ensures |Next(s, step).pc| == |s.pc|
    ensures !step.Free? && i == (if step.MainStep? then 0 else step.i) ==>
      Left(Next(s, step), calls, i) < Left(s, calls, i)
    ensures step.Free? || i != (if step.MainStep? then 0 else step.i) ==>
      Left(Next(s, step), calls, i) == Left(s, calls, i)
  {
    hide WorkerOk;
    if step.MainStep? && i == 0 && s.main.AwaitClear? && s.main.i >= |s.pc| {
      assert (calls - (s.left[0] + 1)) * (2 * |s.pc| + 3) == (calls - s.left[0]) * (2 * |s.pc| + 3) - (2 * |s.pc| + 3);
    }
  }

  lemma {:induction false} StepSum(s: State, step: Step, calls: nat, k: nat)
    requires Inv(s) && EnabledFor(s, step, calls) && k <= |s.pc|
    ensures |Next(s, step).pc| == |s.pc|
    ensures !step.Free? && (if step.MainStep? then 0 else step.i) < k ==>
      LeftUpTo(Next(s, step), calls, k) < LeftUpTo(s, calls, k)
    ensures step.Free? || (if step.MainStep? then 0 else step.i) >= k ==>
      LeftUpTo(Next(s, step), calls, k) == LeftUpTo(s, calls, k)
  {
    if k > 0 {
      StepSum(s, step, calls, k - 1);
      StepLeft(s, step, calls, k - 1);
    }
  }

  /** Every step uses up part of a bounded budget. */
  lemma StepSpends(s: State, step: Step, calls: nat)
    requires Inv(s) && Within(s, calls) && EnabledFor(s, step, calls)
    ensures Inv(Next(s, step)) && Within(Next(s, step), calls)
    ensures 0 <= Budget(Next(s, step), calls) < Budget(s, calls)
  {
    StepInv(s, step);
    StepSum(s, step, calls, |s.pc|);
    BudgetNatural(Next(s, step), calls, |s.pc|);
  }

  /** With every CPU calling the barrier the same number of times, every run ends, and it can
      only end with every CPU back from all its calls. */
  lemma {:induction false} EveryRunEnds(run: seq<State>, steps: seq<Step>, n: nat, calls: nat, t: nat)
    requires IsRun(run, steps) && Init(run[0], n) && t < |run|
    requires forall u :: 0 <= u < |steps| ==> EnabledFor(run[u], steps[u], calls)
    ensures Inv(run[t]) && Within(run[t], calls) && 0 <= Budget(run[t], calls) <= Budget(run[0], calls) - t
    ensures (forall step :: !EnabledFor(run[t], step, calls)) ==> AllDone(run[t], calls)
  {
    if t == 0 {
      InitInv(run[0], n);
      BudgetNatural(run[0], calls, n);
    } else {
      EveryRunEnds(run, steps, n, calls, t - 1);
      StepSpends(run[t - 1], steps[t - 1], calls);
    }
    if !AllDone(run[t], calls) {
      var step := NotStuck(run[t], calls);
      assert EnabledFor(run[t], step, calls);
    }
  }
}
