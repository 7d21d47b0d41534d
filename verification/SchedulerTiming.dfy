/** Time in the scheduler: bounded bypass, response and return of the loop, counted in main steps. */
module SchedulerTiming {
  import opened Arithmetic
  import opened Ctrace
  import opened CtraceTest
  import opened SchedulerModel
  import opened SchedulerSafety

  predicate InSweep(pc: Pc) {
    pc.Test? || pc.Emit? || pc.Call? || pc.Body? || pc.Clear?
  }

  lemma {:induction false} DoneStays(v: Variant, s: State, es: seq<Event>)
    requires WellFormed(s) && s.pc == Done
    ensures Run(v, s, es).pc == Done
    decreases |es|
  {
    if es != [] {
      DoneStays(v, Step(v, s, es[0]), es[1..]);
    }
  }

  lemma StepTotal(v: Variant, s: State, e: Event)
    requires WellFormed(s)
    ensures Step(v, s, e).total == s.total + if e.Tick? then 1 else 0
  {
    hide Words, Program, TaskId;
  }

  lemma InitialConserved(s: State)
    requires Initial(s)
    ensures Safe(s) && Conserved(s)
  {
    assert forall i :: 0 <= i < NUM_TASKS ==> s.queue[i] == Null && s.completed[i] == 0 && s.absorbed[i] == 0;
  }

  // ---------------------------------------------------------------------------------------------
  // Bounded bypass
  // ---------------------------------------------------------------------------------------------

  predicate Starts(s: State, e: Event, i: nat) { e.Main? && s.pc == Call(i) }

  /** How often the run enters the body of task i. */
  function StartCount(v: Variant, s: State, es: seq<Event>, i: nat): nat
    requires WellFormed(s)
    decreases |es|
  {
    if es == [] then 0
    else (if Starts(s, es[0], i) then 1 else 0) + StartCount(v, Step(v, s, es[0]), es[1..], i)
  }

  /** The first slot whose task main may still start in the current sweep. */
  function Upcoming(pc: Pc): nat {
    if pc.Test? || pc.Emit? || pc.Call? then pc.i
    else if pc.Body? || pc.Clear? then pc.i + 1
    else 0
  }

  /** In the cyclic order of the sweep, main gets to slot i before slot j. */
  predicate Before(pc: Pc, i: nat, j: nat) {
    var u := Upcoming(pc);
    (if i >= u then i else i + NUM_TASKS) < (if j >= u then j else j + NUM_TASKS)
  }

  /** Slot j is occupied and its task has not been started for it. */
  predicate Waiting(s: State, j: nat)
    requires WellFormed(s) && j < NUM_TASKS
  {
    Pending(s, j) && !((s.pc.Body? || s.pc.Clear?) && s.pc.i == j)
  }

  lemma StepKeepsWaiting(v: Variant, s: State, e: Event, j: nat)
    requires Safe(s) && j < NUM_TASKS && Waiting(s, j)
    requires !Starts(s, e, j)
    ensures Waiting(Step(v, s, e), j)
  {
    hide Words, Program, TaskId;
  }

  lemma StepBypass(v: Variant, s: State, e: Event, i: nat, j: nat)
    requires Safe(s) && i < NUM_TASKS && j < NUM_TASKS && i != j && Waiting(s, j)
    requires !Starts(s, e, j)
    ensures (if Starts(s, e, i) then 1 else 0) + (if Before(Step(v, s, e).pc, i, j) then 1 else 0)
            <= if Before(s.pc, i, j) then 1 else 0
  {
    hide Words, Program, TaskId;
  }

  /** Bounded bypass: while slot j waits, every other task is started at most once, whatever ticks arrive in between. */
  lemma {:induction false} BoundedBypass(v: Variant, s: State, es: seq<Event>, i: nat, j: nat)
    requires Safe(s) && i < NUM_TASKS && j < NUM_TASKS && i != j && Waiting(s, j)
    requires StartCount(v, s, es, j) == 0
    ensures StartCount(v, s, es, i) <= if Before(s.pc, i, j) then 1 else 0
    decreases |es|
  {
    if es != [] {
      var t := Step(v, s, es[0]);
      StepKeepsWaiting(v, s, es[0], j);
      StepBypass(v, s, es[0], i, j);
      assert Safe(t) by {
        TickSafe(s);
        MainSafe(v, s);
      }
      hide Step, Safe, Waiting, Before;
      BoundedBypass(v, t, es[1..], i, j);
    }
  }

  // ---------------------------------------------------------------------------------------------
  // Response and return, counted in main steps
  // ---------------------------------------------------------------------------------------------

  const BODY_STEPS: nat := 9

  lemma TestLength(p: Platform, k: nat)
    requires k < 8
    ensures |Encode(TestMessages(p, k))| < BODY_STEPS
  {
    hide Words;
    forall m { WordsCounted(m); }
    var ms := TestMessages(p, k);
    if |ms| == 4 {
      Append4([], ms[0], ms[1], ms[2], ms[3]);
      assert ms == [ms[0], ms[1], ms[2], ms[3]];
    } else if |ms| == 3 {
      Append3([], ms[0], ms[1], ms[2]);
      assert ms == [ms[0], ms[1], ms[2]];
    } else if |ms| == 2 {
      Append2([], ms[0], ms[1]);
      assert ms == [ms[0], ms[1]];
    } else {
      Append1([], ms[0]);
      assert ms == [ms[0]];
    }
  }

  lemma {:induction false} WriteAllWrites(ws: seq<bv32>)
    ensures |WriteAll(ws)| == |ws|
    ensures forall k :: 0 <= k < |ws| ==> WriteAll(ws)[k] == Write(ws[k])
  {
    if ws != [] {
      WriteAllWrites(ws[1..]);
    }
  }

  /** What is left of a task body is short, and only the last task stops the scheduler, in its only step. */
  predicate BodyOk(s: State) {
    match s.pc
    case Body(i, todo) =>
      && |todo| <= BODY_STEPS
      && (if i == 3 then todo == [Stop] || (todo == [] && !s.enabled) else Stop !in todo)
    case Clear(i) => i == 3 ==> !s.enabled
    case _ => true
  }

  lemma ProgramOk(p: Platform, task: nat, counter: nat)
    requires task < NUM_TASKS
    ensures |Program(p, task, counter)| <= BODY_STEPS
    ensures if task == 3 then Program(p, task, counter) == [Stop] else Stop !in Program(p, task, counter)
  {
    if task == 2 {
      var ws := Encode(TestMessages(p, counter % 8));
      hide Encode;
      TestLength(p, counter % 8);
      WriteAllWrites(ws);
    }
  }

  lemma StepBodyOk(v: Variant, s: State, e: Event)
    requires Safe(s) && BodyOk(s)
    ensures BodyOk(Step(v, s, e))
  {
    hide Words, Program, TaskId;
    if s.pc.Call? {
      ProgramOk(s.platform, s.pc.i, s.counter);
    }
  }

  const SLOT_STEPS: nat := BODY_STEPS + 5

  /** An upper bound on the main steps until main leaves the current slot. */
  function SlotSteps(pc: Pc): nat {
    match pc
    case Test(_) => SLOT_STEPS
    case Emit(_) => SLOT_STEPS - 1
    case Call(_) => SLOT_STEPS - 2
    case Body(_, todo) => |todo| + 2
    case Clear(_) => 1
    case _ => 0
  }

  function SweepSteps(pc: Pc): nat
    requires InSweep(pc) && pc.i < NUM_TASKS
  {
    SlotSteps(pc) + SLOT_STEPS * (NUM_TASKS - 1 - pc.i)
  }

  /** An upper bound on the main steps until task j, waiting, is started or the loop has returned. */
  function StepsToStart(s: State, j: nat): nat
    requires WellFormed(s) && j < NUM_TASKS
  {
    var fromHead := 4 + SLOT_STEPS * j;
    if s.pc.Boot? then fromHead + 1
    else if !InSweep(s.pc) then (if s.pc.Head? then fromHead else 0)
    else if s.pc.i == j && s.pc.Test? then 3
    else if s.pc.i == j && s.pc.Emit? then 2
    else if s.pc.i == j && s.pc.Call? then 1
    else if s.pc.i < j then SlotSteps(s.pc) + SLOT_STEPS * (j - s.pc.i - 1) + 3
    else SweepSteps(s.pc) + fromHead
  }

  lemma MainApproaches(v: Variant, s: State, j: nat)
    requires Safe(s) && BodyOk(s) && j < NUM_TASKS && Waiting(s, j)
    requires s.pc != Done && s.pc != Call(j)
    ensures MainStep(v, s).pc == Done || StepsToStart(MainStep(v, s), j) < StepsToStart(s, j)
  {
    MainMoves(v, s);
    hide MainStep;
  }

  /** Where a main step takes the program, and how long the body it may enter can be. */
  lemma MainMoves(v: Variant, s: State)
    requires Safe(s) && BodyOk(s)
    ensures var t := MainStep(v, s);
            match s.pc
            case Boot => t.pc == Head && t.enabled
            case Head => t.enabled == s.enabled && t.pc == if s.enabled then Test(0) else Done
            case Test(i) => t.enabled == s.enabled && t.pc == if Pending(s, i) then Emit(i) else NextSlot(i)
            case Emit(i) => t.enabled == s.enabled && t.pc == Call(i)
            case Call(i) => t.enabled == s.enabled && t.pc.Body? && t.pc.i == i && |t.pc.todo| <= BODY_STEPS
            case Body(i, todo) => t.pc == if todo == [] then Clear(i) else Body(i, todo[1..])
            case Clear(i) => t.enabled == s.enabled && t.pc == NextSlot(i)
            case Done => t == s
            case Fault => true
  {
    hide Words, Program, TaskId;
    if s.pc.Call? {
      ProgramOk(s.platform, s.pc.i, s.counter);
    }
  }

  lemma TickKeepsDistance(s: State, j: nat)
    requires WellFormed(s) && j < NUM_TASKS
    ensures StepsToStart(TickStep(s), j) == StepsToStart(s, j)
  {
  }

  function MainCount(es: seq<Event>): nat {
    if es == [] then 0 else (if es[0].Main? then 1 else 0) + MainCount(es[1..])
  }

  /** Response: a waiting task is started, or the loop has returned, within a number of main steps no tick raises. */
  lemma {:induction false} WaitingTaskStarts(v: Variant, s: State, es: seq<Event>, j: nat)
    requires Safe(s) && BodyOk(s) && j < NUM_TASKS && Waiting(s, j)
    requires MainCount(es) >= StepsToStart(s, j)
    ensures StartCount(v, s, es, j) >= 1 || Run(v, s, es).pc == Done
    decreases |es|
  {
    if s.pc == Done {
      DoneStays(v, s, es);
    } else if es != [] && !Starts(s, es[0], j) {
      var t := Step(v, s, es[0]);
      StepKeepsWaiting(v, s, es[0], j);
      StepBodyOk(v, s, es[0]);
      assert Safe(t) by {
        TickSafe(s);
        MainSafe(v, s);
      }
      if es[0].Tick? {
        TickKeepsDistance(s, j);
      } else {
        MainApproaches(v, s, j);
      }
      if t.pc == Done {
        DoneStays(v, t, es[1..]);
      } else {
        hide Step, Safe, BodyOk, Waiting, StepsToStart;
        WaitingTaskStarts(v, t, es[1..], j);
      }
    }
  }

  /** The 1000 ms task has been released, or the scheduler has been stopped. */
  predicate ExitDue(s: State)
    requires WellFormed(s)
  {
    Pending(s, 3) || (!s.enabled && s.pc != Boot)
  }

  /** An upper bound on the main steps until the loop returns, once that is due. */
  function StepsToReturn(s: State): nat
    requires WellFormed(s)
  {
    if s.pc.Done? || s.pc.Fault? then 0
    else if s.pc.Boot? then SLOT_STEPS * NUM_TASKS + 3
    else if s.pc.Head? then (if s.enabled then SLOT_STEPS * NUM_TASKS + 2 else 1)
    else SweepSteps(s.pc) + 1
  }

  lemma StepExitDue(v: Variant, s: State, e: Event)
    requires Safe(s) && BodyOk(s) && ExitDue(s)
    ensures ExitDue(Step(v, s, e))
  {
    hide Words, Program, TaskId;
  }

  lemma MainReturns(v: Variant, s: State)
    requires Safe(s) && BodyOk(s) && ExitDue(s) && s.pc != Done
    ensures StepsToReturn(MainStep(v, s)) < StepsToReturn(s)
  {
    MainMoves(v, s);
    hide MainStep;
  }

  lemma TickKeepsReturn(s: State)
    requires WellFormed(s)
    ensures StepsToReturn(TickStep(s)) == StepsToReturn(s)
  {
  }

  /** Return: once the 1000 ms task has been released, a measure on the position of main that no tick raises brings
      scheduler_run to its end. */
  lemma {:induction false} LoopReturns(v: Variant, s: State, es: seq<Event>)
    requires Safe(s) && BodyOk(s) && ExitDue(s)
    requires MainCount(es) >= StepsToReturn(s)
    ensures Run(v, s, es).pc == Done
    decreases |es|
  {
    if s.pc == Done {
      DoneStays(v, s, es);
    } else if es != [] {
      var t := Step(v, s, es[0]);
      StepExitDue(v, s, es[0]);
      StepBodyOk(v, s, es[0]);
      assert Safe(t) by {
        TickSafe(s);
        MainSafe(v, s);
      }
      if es[0].Tick? {
        TickKeepsReturn(s);
      } else {
        MainReturns(v, s);
      }
      hide Step, Safe, BodyOk, ExitDue, StepsToReturn;
      LoopReturns(v, t, es[1..]);
    }
  }

  predicate DueBy1000(s: State)
    requires WellFormed(s)
  {
    s.total >= 1000 ==> ExitDue(s)
  }

  lemma StepDueBy1000(v: Variant, s: State, e: Event)
    requires Safe(s) && BodyOk(s) && Conserved(s) && DueBy1000(s)
    ensures DueBy1000(Step(v, s, e))
  {
    StepTotal(v, s, e);
    if s.total >= 1000 {
      StepExitDue(v, s, e);
    } else if e.Tick? && s.total == 999 {
      assert NextTicks(s.ticks) == 1000;
      assert Due(1000, 3);
    }
  }

  lemma {:induction false} RunDueBy1000(v: Variant, s: State, es: seq<Event>)
    requires Safe(s) && BodyOk(s) && Conserved(s) && DueBy1000(s)
    ensures Safe(Run(v, s, es)) && BodyOk(Run(v, s, es)) && Conserved(Run(v, s, es)) && DueBy1000(Run(v, s, es))
    decreases |es|
  {
    if es != [] {
      var t := Step(v, s, es[0]);
      StepBodyOk(v, s, es[0]);
      StepDueBy1000(v, s, es[0]);
      assert Safe(t) && Conserved(t) by {
        TickSafe(s);
        TickConserved(s);
        MainSafe(v, s);
        MainConserved(v, s);
      }
      hide Step, Safe, BodyOk, Conserved, DueBy1000;
      RunDueBy1000(v, t, es[1..]);
    }
  }

  /** The measures are small numbers of main steps. */
  lemma StepBounds(s: State, j: nat)
    requires Safe(s) && BodyOk(s) && j < 4
    ensures StepsToStart(s, j) <= 102 && StepsToReturn(s) <= 59
  {
  }

  lemma StartsDue(s: State)
    requires Initial(s)
    ensures Safe(s) && BodyOk(s) && Conserved(s) && DueBy1000(s)
  {
    InitialConserved(s);
  }

  /** scheduler_run returns: however ticks and main steps interleave, once 1000 ticks have come, 59 further main steps
      end the loop. */
  lemma SchedulerReturns(v: Variant, s: State, es: seq<Event>, fs: seq<Event>)
    requires Initial(s)
    requires Run(v, s, es).total >= 1000 && MainCount(fs) >= 59
    ensures Run(v, s, es + fs).pc == Done
  {
    hide Run, Safe, BodyOk, Conserved, ExitDue, StepsToReturn, MainCount;
    StartsDue(s);
    RunDueBy1000(v, s, es);
    RunAppend(v, s, es, fs);
    StepBounds(Run(v, s, es), 0);
    LoopReturns(v, Run(v, s, es), fs);
  }
}
