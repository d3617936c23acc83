/** The ready/running handshake of benchmarks/metis/lib/pthreadpool.c.

    The main thread runs any program of creates and joins over any number of pool threads;
    each read or write of a slot field is one step. */
module ThreadPool {

  datatype Job = Job(routine: int, arg: int)

  /** Where a pool thread is in `mthread_entry`. */
  datatype Pc =
    | AwaitReady
    | SetRunning
    | ClearReady
    | LoadRoutine
    | LoadArg(routine: int)
    | Run(job: Job)
    | ClearRunning(job: Job)

  /** `thread_pool_t` with its thread.  `created` and `ran` are the jobs handed over and the
      jobs whose routine has returned. */
  datatype Slot = Slot(arg: int, routine: int, ready: bool, running: bool, pc: Pc,
                       created: seq<Job>, ran: seq<Job>)

  /** `mthread_create` for a pool thread, and `mthread_join`. */
  datatype Op = Create(lid: nat, job: Job) | Join(lid: nat)

  /** Where the main thread is in the operation it performs. */
  datatype MainPc = AwaitIdle | WriteArg | WriteRoutine | WriteReady | AwaitTaken

  datatype State = State(slots: seq<Slot>, todo: seq<Op>, at: MainPc)

  datatype Step = MainStep | PoolStep(lid: nat)

  predicate ProperProgram(ops: seq<Op>, n: nat) {
    forall i :: 0 <= i < |ops| ==> ops[i].lid < n
  }

  ghost predicate Init(s: State) {
    && s.at == AwaitIdle && ProperProgram(s.todo, |s.slots|)
    && forall i :: 0 <= i < |s.slots| ==> s.slots[i] == Slot(0, 0, false, false, AwaitReady, [], [])
  }

  predicate Enabled(s: State, step: Step) {
    match step
    case MainStep =>
      && |s.todo| > 0 && s.todo[0].lid < |s.slots|
      && (var slot := s.slots[s.todo[0].lid];
          match s.at
          case AwaitIdle => !slot.running
          case AwaitTaken => !slot.ready
          case _ => s.todo[0].Create?)
    case PoolStep(lid) =>
      lid < |s.slots| && (s.slots[lid].pc.AwaitReady? ==> s.slots[lid].ready)
  }

  function PoolNext(slot: Slot): Slot {
    match slot.pc
    case AwaitReady => slot.(pc := SetRunning)
    case SetRunning => slot.(running := true, pc := ClearReady)
    case ClearReady => slot.(ready := false, pc := LoadRoutine)
    case LoadRoutine => slot.(pc := LoadArg(slot.routine))
    case LoadArg(r) => slot.(pc := Run(Job(r, slot.arg)))
    case Run(job) => slot.(ran := slot.ran + [job], pc := ClearRunning(job))
    case ClearRunning(_) => slot.(running := false, pc := AwaitReady)
  }

  function Next(s: State, step: Step): State
    requires Enabled(s, step)
  {
    match step
    case PoolStep(lid) => s.(slots := s.slots[lid := PoolNext(s.slots[lid])])
    case MainStep =>
      var op := s.todo[0];
      var slot := s.slots[op.lid];
      match s.at
      case AwaitIdle => if op.Create? then s.(at := WriteArg) else s.(todo := s.todo[1..])
      case WriteArg => s.(slots := s.slots[op.lid := slot.(arg := op.job.arg)], at := WriteRoutine)
      case WriteRoutine => s.(slots := s.slots[op.lid := slot.(routine := op.job.routine)], at := WriteReady)
      case WriteReady =>
        s.(slots := s.slots[op.lid := slot.(ready := true, created := slot.created + [op.job])], at := AwaitTaken)
      case AwaitTaken => s.(at := AwaitIdle, todo := s.todo[1..])
  }

  // --------------------------------------------------------------- the invariant

  /** The thread sleeps and everything handed to it has run. */
  ghost predicate Idle(slot: Slot) {
    slot.pc.AwaitReady? && !slot.ready && !slot.running && slot.ran == slot.created
  }

  /** A job was handed over and the thread has not yet said so. */
  ghost predicate Handed(slot: Slot) {
    && slot.ready && |slot.created| > 0 && slot.created == slot.ran + [Job(slot.routine, slot.arg)]
    && match slot.pc
       case AwaitReady => !slot.running
       case SetRunning => !slot.running
       case ClearReady => slot.running
       case _ => false
  }

  /** The thread is running the last job handed to it. */
  ghost predicate Busy(slot: Slot) {
    && !slot.ready && slot.running && |slot.created| > 0
    && var job := slot.created[|slot.created| - 1];
       match slot.pc
       case LoadRoutine => slot.created == slot.ran + [Job(slot.routine, slot.arg)]
       case LoadArg(r) => slot.created == slot.ran + [Job(slot.routine, slot.arg)] && r == slot.routine
       case Run(j) => slot.created == slot.ran + [j]
       case ClearRunning(j) => slot.created == slot.ran && j == job
       case _ => false
  }

  ghost predicate Inv(s: State) {
    && ProperProgram(s.todo, |s.slots|)
    && (s.at != AwaitIdle ==> |s.todo| > 0 && s.todo[0].Create?)
    && forall i :: 0 <= i < |s.slots| ==> SlotOk(s, i)
  }

  /** The main thread and thread `i` together. */
  ghost predicate SlotOk(s: State, i: nat)
    requires i < |s.slots|
  {
    var slot := s.slots[i];
    if s.at == AwaitIdle || |s.todo| == 0 || s.todo[0].lid != i then Idle(slot) || Busy(slot)
    else match s.at
      case AwaitTaken => Idle(slot) || Busy(slot) || Handed(slot)
      case WriteReady => Idle(slot) && s.todo[0].Create? && slot.arg == s.todo[0].job.arg &&
        slot.routine == s.todo[0].job.routine
      case WriteRoutine => Idle(slot) && s.todo[0].Create? && slot.arg == s.todo[0].job.arg
      case _ => Idle(slot)
  }

  lemma InitInv(s: State)
    requires Init(s)
    ensures Inv(s)
  {
    forall i | 0 <= i < |s.slots| ensures SlotOk(s, i) {
      assert s.slots[i] == Slot(0, 0, false, false, AwaitReady, [], []);
    }
  }

  lemma PoolInv(slot: Slot)
    requires slot.pc.AwaitReady? ==> slot.ready
    ensures Busy(slot) ==> Busy(PoolNext(slot)) || Idle(PoolNext(slot))
    ensures Handed(slot) ==> Handed(PoolNext(slot)) || Busy(PoolNext(slot))
  {
  }

  lemma StepInv(s: State, step: Step)
    requires Inv(s) && Enabled(s, step)
    ensures Inv(Next(s, step))
  {
    var s' := Next(s, step);
    forall i | 0 <= i < |s'.slots| ensures SlotOk(s', i) {
      assert SlotOk(s, i);
      if step == PoolStep(i) {
        PoolInv(s.slots[i]);
      }
    }
  }

  // ------------------------------------------------------------------- what it gives

  /** The main thread writes `arg` and `start_routine` only while the thread sleeps. */
  lemma NoOverwrite(s: State)
    requires Inv(s) && Enabled(s, MainStep) && (s.at == WriteArg || s.at == WriteRoutine)
    ensures s.slots[s.todo[0].lid].pc.AwaitReady? && !s.slots[s.todo[0].lid].ready
  {
    assert SlotOk(s, s.todo[0].lid);
  }

  /** The jobs a program creates for thread `lid`, in order. */
  function JobsFor(ops: seq<Op>, lid: nat): seq<Job> {
    if ops == [] then []
    else JobsFor(ops[..|ops| - 1], lid) +
         (if ops[|ops| - 1].Create? && ops[|ops| - 1].lid == lid then [ops[|ops| - 1].job] else [])
  }

  /** How much of `program` the main thread has behind it. */
  ghost predicate Follows(s: State, program: seq<Op>) {
    && |s.todo| <= |program| && s.todo == program[|program| - |s.todo|..]
    && (s.at == AwaitTaken ==> |s.todo| > 0)
    && forall i :: 0 <= i < |s.slots| ==>
         s.slots[i].created == JobsFor(program[..|program| - |s.todo| + (if s.at == AwaitTaken then 1 else 0)], i)
  }

  lemma JobsForStep(program: seq<Op>, k: nat, lid: nat)
    requires k < |program|
    ensures JobsFor(program[..k + 1], lid) == JobsFor(program[..k], lid) +
      (if program[k].Create? && program[k].lid == lid then [program[k].job] else [])
  {
    assert program[..k + 1][..k] == program[..k];
  }

  lemma StepFollows(s: State, step: Step, program: seq<Op>)
    requires Inv(s) && Enabled(s, step) && Follows(s, program)
    ensures Follows(Next(s, step), program)
  {
    hide JobsFor, SlotOk, ProperProgram;
    var s' := Next(s, step);
    if step.MainStep? {
      var k := |program| - |s.todo|;
      assert s.todo[0] == program[k];
      forall i | 0 <= i < |s.slots|
        ensures var done := |program| - |s'.todo| + (if s'.at == AwaitTaken then 1 else 0);
          s'.slots[i].created == JobsFor(program[..done], i)
      {
        JobsForStep(program, k, i);
      }
      assert s.todo[1..] == program[k + 1..];
    }
  }

  ghost predicate IsRun(run: seq<State>, steps: seq<Step>) {
    && |run| == |steps| + 1
    && forall t :: 0 <= t < |steps| ==> Enabled(run[t], steps[t]) && run[t + 1] == Next(run[t], steps[t])
  }

  /** Any program, any interleaving: every thread has run the jobs created for it, each once,
      in order and with its own argument, except perhaps the last one. */
  lemma {:induction false} PoolHolds(run: seq<State>, steps: seq<Step>, program: seq<Op>, t: nat)
    requires IsRun(run, steps) && Init(run[0]) && run[0].todo == program && t < |run|
    ensures Inv(run[t]) && Follows(run[t], program)
    ensures forall i :: 0 <= i < |run[t].slots| ==>
      run[t].slots[i].ran <= run[t].slots[i].created && |run[t].slots[i].created| <= |run[t].slots[i].ran| + 1
  {
    hide Inv, Follows, Init, Next, Enabled, SlotOk;
    if t == 0 {
      InitInv(run[0]);
      InitFollows(run[0]);
    } else {
      PoolHolds(run, steps, program, t - 1);
      StepInv(run[t - 1], steps[t - 1]);
      StepFollows(run[t - 1], steps[t - 1], program);
    }
    forall i | 0 <= i < |run[t].slots|
      ensures run[t].slots[i].ran <= run[t].slots[i].created && |run[t].slots[i].created| <= |run[t].slots[i].ran| + 1
    {
      RanOrLast(run[t], i);
    }
  }

  lemma InitFollows(s: State)
    requires Init(s)
    ensures Follows(s, s.todo)
  {
    assert s.todo[..0] == [];
  }

  lemma RanOrLast(s: State, i: nat)
    requires Inv(s) && i < |s.slots|
    ensures s.slots[i].ran <= s.slots[i].created && |s.slots[i].created| <= |s.slots[i].ran| + 1
  {
    assert SlotOk(s, i);
  }

  /** When a join returns, everything created for that thread has run. */
  lemma JoinWaits(run: seq<State>, steps: seq<Step>, program: seq<Op>, t: nat)
    requires IsRun(run, steps) && Init(run[0]) && run[0].todo == program && t < |steps|
    requires steps[t] == MainStep && run[t].todo[0].Join?
    ensures |run[t].todo| <= |program|
    ensures run[t].slots[run[t].todo[0].lid].ran
         == JobsFor(program[..|program| - |run[t].todo|], run[t].todo[0].lid)
  {
    PoolHolds(run, steps, program, t);
    assert SlotOk(run[t], run[t].todo[0].lid);
  }

  /** As long as the program is not finished some thread can move. */
  lemma NotStuck(s: State) returns (step: Step)
    requires Inv(s) && s.todo != []
    ensures Enabled(s, step)
  {
    var lid := s.todo[0].lid;
    assert SlotOk(s, lid);
    step := if Enabled(s, MainStep) then MainStep else PoolStep(lid);
  }

  // ------------------------------------------------------------------- every run ends

  /** The steps a thread has left until it sleeps. */
  function PoolLeft(slot: Slot): nat {
    match slot.pc
    case AwaitReady => if slot.ready then 7 else 0
    case SetRunning => 6
    case ClearReady => 5
    case LoadRoutine => 4
    case LoadArg(_) => 3
    case Run(_) => 2
    case ClearRunning(_) => 1
  }

  function AllPoolLeft(slots: seq<Slot>): nat {
    if slots == [] then 0 else AllPoolLeft(slots[..|slots| - 1]) + PoolLeft(slots[|slots| - 1])
  }

  /** An operation takes the main thread up to five steps, and a thread seven. */
  function MainLeft(todo: seq<Op>, at: MainPc): int {
    12 * |todo| -
    match at
    case AwaitIdle => 0
    case WriteArg => 1
    case WriteRoutine => 2
    case WriteReady => 3
    case AwaitTaken => 11
  }

  function Budget(s: State): int { MainLeft(s.todo, s.at) + AllPoolLeft(s.slots) }

  lemma {:induction false} PoolLeftSet(slots: seq<Slot>, i: nat, slot: Slot)
    requires i < |slots|
    ensures AllPoolLeft(slots[i := slot]) == AllPoolLeft(slots) - PoolLeft(slots[i]) + PoolLeft(slot)
  {
    var n := |slots| - 1;
    if i == n {
      assert slots[i := slot][..n] == slots[..n];
    } else {
      assert slots[i := slot][..n] == slots[..n][i := slot];
      PoolLeftSet(slots[..n], i, slot);
    }
  }

  lemma {:induction false} NothingLeft(slots: seq<Slot>)
    requires forall i :: 0 <= i < |slots| ==> PoolLeft(slots[i]) == 0
    ensures AllPoolLeft(slots) == 0
  {
    if slots != [] {
      NothingLeft(slots[..|slots| - 1]);
    }
  }

  /** A thread that moves has one step less to go. */
  lemma PoolSpends(s: State, i: nat)
    requires Inv(s) && Enabled(s, PoolStep(i))
    ensures PoolLeft(PoolNext(s.slots[i])) < PoolLeft(s.slots[i])
  {
    assert SlotOk(s, i);
  }

  /** Every step uses up part of a budget that is never negative. */
  lemma StepSpends(s: State, step: Step)
    requires Inv(s) && Enabled(s, step)
    ensures Inv(Next(s, step)) && 0 <= Budget(Next(s, step)) < Budget(s)
  {
    hide AllPoolLeft;
    StepInv(s, step);
    match step
    case PoolStep(lid) =>
      PoolSpends(s, lid);
      PoolLeftSet(s.slots, lid, PoolNext(s.slots[lid]));
    case MainStep =>
      var lid := s.todo[0].lid;
      assert SlotOk(s, lid);
      PoolLeftSet(s.slots, lid, Next(s, step).slots[lid]);
      assert s.slots[lid := s.slots[lid]] == s.slots;
  }

  /** Every run of a program ends, after at most twelve steps for each operation, and it can only
      end when the whole program is done and every thread has run all jobs created for it. */
  lemma {:induction false} EveryRunEnds(run: seq<State>, steps: seq<Step>, program: seq<Op>, t: nat)
    requires IsRun(run, steps) && Init(run[0]) && run[0].todo == program && t < |run|
    ensures Inv(run[t]) && 0 <= Budget(run[t]) <= 12 * |program| - t
    ensures (forall step :: !Enabled(run[t], step)) ==>
      run[t].todo == [] && forall i :: 0 <= i < |run[t].slots| ==> run[t].slots[i].ran == JobsFor(program, i)
  {
    hide Inv, Follows, Next, Enabled, SlotOk, JobsFor;
    PoolHolds(run, steps, program, t);
    if t == 0 {
      NothingLeft(run[0].slots);
    } else {
      EveryRunEnds(run, steps, program, t - 1);
      StepSpends(run[t - 1], steps[t - 1]);
    }
    if forall step :: !Enabled(run[t], step) {
      AllRun(run[t], program);
    }
  }

  lemma AllRun(s: State, program: seq<Op>)
    requires Inv(s) && Follows(s, program) && forall step :: !Enabled(s, step)
    ensures s.todo == [] && forall i :: 0 <= i < |s.slots| ==> s.slots[i].ran == JobsFor(program, i)
  {
    hide JobsFor;
    if s.todo != [] {
      var step := NotStuck(s);
    }
    assert program[..|program|] == program;
    forall i: nat | i < |s.slots| ensures s.slots[i].ran == JobsFor(program, i) {
      assert SlotOk(s, i) && !Enabled(s, PoolStep(i));
    }
  }
}
