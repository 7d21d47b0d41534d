/** scheduler.c as a transition system.

    One main step is one shared access of the loop in scheduler_run; a tick is one run of the timer interrupt, which
    may fall between any two main steps. A run is any finite sequence of the two. */
module SchedulerModel {
  import opened Ctrace
  import opened CtraceTest

  const NUM_TASKS: nat := 4

  /** The task table: entry i has id i + 1. */
  function Period(i: nat): nat
    requires i < NUM_TASKS
  {
    if i == 0 then 5 else if i == 1 then 10 else if i == 2 then 100 else 1000
  }

  function TaskId(i: nat): bv16
    requires i < NUM_TASKS
  {
    if i == 0 then 1 else if i == 1 then 2 else if i == 2 then 3 else 4
  }

  /** An entry of scheduler_queue: NULL or a pointer into the task table. */
  datatype Slot = Null | Task(index: nat)

  /** What a task body does that others can see: write a command word, advance the test counter, stop the scheduler. */
  datatype Action = Write(w: bv32) | Count | Stop

  datatype Pc =
    | Boot                            // timer started, scheduler_enable() still to come
    | Head                            // about to read scheduler_enabled
    | Test(i: nat)                    // about to test slot i
    | Emit(i: nat)                    // about to read the id through slot i and write the ownership message
    | Call(i: nat)                    // about to read the entry point through slot i
    | Body(i: nat, todo: seq<Action>) // inside the task
    | Clear(i: nat)                   // about to clear slot i
    | Done                            // scheduler_run has returned
    | Fault                           // a NULL slot was dereferenced

  /** What a run leaves behind: sweep starts, and ownership messages with the tick at which they were written. */
  datatype Entry = Sweep | Own(task: nat, tick: nat)

  datatype State = State(
    platform: Platform,
    pc: Pc,
    queue: seq<Slot>,
    enabled: bool,
    ticks: nat,           // scheduler_ticks, modulo 2^32
    counter: nat,         // the counter of ctrace_test.c
    words: seq<bv32>,     // command words written so far
    // history
    total: nat,           // ticks since the timer was started
    completed: seq<nat>,  // per task: slot clears
    absorbed: seq<nat>,   // per task: releases that found the slot occupied
    sweepTicks: nat,      // ticks since the current sweep began (or since the timer was started)
    log: seq<Entry>)

  /** The four #else blocks call the tasks by name; the loop calls through the slot. */
  datatype Variant = Loop | Unrolled

  function WriteAll(ws: seq<bv32>): seq<Action> {
    if ws == [] then [] else [Write(ws[0])] + WriteAll(ws[1..])
  }

  /** The actions of a task: the 100 ms task runs ctrace_test_main, the 1000 ms task stops the scheduler. */
  function Program(p: Platform, task: nat, counter: nat): seq<Action>
    requires task < NUM_TASKS
  {
    if task == 2 then WriteAll(Encode(TestMessages(p, counter % 8))) + [Count]
    else if task == 3 then [Stop]
    else []
  }

  predicate WellFormed(s: State) {
    && |s.queue| == |s.completed| == |s.absorbed| == NUM_TASKS
    && s.ticks < WORD_MODULUS && s.counter < WORD_MODULUS
    && (s.pc.Test? || s.pc.Emit? || s.pc.Call? || s.pc.Body? || s.pc.Clear? ==> s.pc.i < NUM_TASKS)
    && forall i :: 0 <= i < NUM_TASKS && s.queue[i].Task? ==> s.queue[i].index < NUM_TASKS
  }

  /** The state in which the timer has just been started; scheduler_enabled and the test counter hold anything. */
  predicate Initial(s: State) {
    && s.pc == Boot && s.queue == [Null, Null, Null, Null] && s.ticks == 0 && s.counter < WORD_MODULUS
    && s.words == [] && s.total == 0 && s.completed == [0, 0, 0, 0] && s.absorbed == [0, 0, 0, 0]
    && s.sweepTicks == 0 && s.log == []
  }

  function NextSlot(i: nat): Pc { if i + 1 < NUM_TASKS then Test(i + 1) else Head }

  predicate Due(ticks: nat, i: nat)
    requires i < NUM_TASKS
  {
    ticks % Period(i) == 0
  }

  function NextTicks(ticks: nat): (t: nat)
    requires ticks < WORD_MODULUS
    ensures t < WORD_MODULUS
  {
    if ticks + 1 == WORD_MODULUS then 0 else ticks + 1
  }

  /** The queue after the release loop of scheduler_next. */
  function Release(queue: seq<Slot>, ticks: nat): (q: seq<Slot>)
    requires |queue| == NUM_TASKS
    ensures |q| == NUM_TASKS
  {
    seq(NUM_TASKS, i requires 0 <= i < NUM_TASKS => if Due(ticks, i) then Task(i) else queue[i])
  }

  /** Every fifth, tenth, hundredth and thousandth count releases tasks 0, 1, 2 and 3. */
  lemma ReleaseTable(queue: seq<Slot>, ticks: nat)
    requires |queue| == 4
    ensures Release(queue, ticks)
            == [if ticks % 5 == 0 then Task(0) else queue[0], if ticks % 10 == 0 then Task(1) else queue[1],
                if ticks % 100 == 0 then Task(2) else queue[2], if ticks % 1000 == 0 then Task(3) else queue[3]]
  {
  }

  /** scheduler_next, the timer interrupt. */
  function TickStep(s: State): (t: State)
    requires WellFormed(s)
    ensures WellFormed(t)
  {
    var ticks := NextTicks(s.ticks);
    s.(ticks := ticks, queue := Release(s.queue, ticks), total := s.total + 1, sweepTicks := s.sweepTicks + 1,
       absorbed := seq(NUM_TASKS, i requires 0 <= i < NUM_TASKS =>
                                    s.absorbed[i] + if Due(ticks, i) && s.queue[i] != Null then 1 else 0))
  }

  function Perform(s: State, a: Action): (t: State)
    requires WellFormed(s)
    ensures WellFormed(t)
  {
    match a
    case Write(w) => s.(words := s.words + [w])
    case Count => s.(counter := NextCounter(s.counter))
    case Stop => s.(enabled := false)
  }

  /** One step of the main program. */
  function MainStep(v: Variant, s: State): (t: State)
    requires WellFormed(s)
    ensures WellFormed(t)
  {
    match s.pc
    case Boot => s.(enabled := true, pc := Head)
    case Head => if s.enabled then s.(pc := Test(0), sweepTicks := 0, log := s.log + [Sweep]) else s.(pc := Done)
    case Test(i) => if s.queue[i] != Null then s.(pc := Emit(i)) else s.(pc := NextSlot(i))
    case Emit(i) =>
      if s.queue[i] == Null then s.(pc := Fault)
      else
        var task := s.queue[i].index;
        s.(pc := Call(i), words := s.words + Words(Owner(TaskId(task))), log := s.log + [Own(task, s.total)])
    case Call(i) =>
      if v == Unrolled then s.(pc := Body(i, Program(s.platform, i, s.counter)))
      else if s.queue[i] == Null then s.(pc := Fault)
      else s.(pc := Body(i, Program(s.platform, s.queue[i].index, s.counter)))
    case Body(i, todo) =>
      if todo == [] then s.(pc := Clear(i)) else Perform(s.(pc := Body(i, todo[1..])), todo[0])
    case Clear(i) =>
      s.(pc := NextSlot(i), queue := s.queue[i := Null], completed := s.completed[i := s.completed[i] + 1])
    case Done => s
    case Fault => s
  }

  datatype Event = Tick | Main

  function Step(v: Variant, s: State, e: Event): (t: State)
    requires WellFormed(s)
    ensures WellFormed(t)
  {
    if e.Tick? then TickStep(s) else MainStep(v, s)
  }

  function Run(v: Variant, s: State, es: seq<Event>): (t: State)
    requires WellFormed(s)
    ensures WellFormed(t)
    decreases |es|
  {
    if es == [] then s else Run(v, Step(v, s, es[0]), es[1..])
  }

  lemma {:induction false} RunAppend(v: Variant, s: State, es: seq<Event>, fs: seq<Event>)
    requires WellFormed(s)
    ensures Run(v, s, es + fs) == Run(v, Run(v, s, es), fs)
    decreases |es|
  {
    hide Step;
    if es == [] {
      assert es + fs == fs;
    } else {
      assert (es + fs)[1..] == es[1..] + fs;
      RunAppend(v, Step(v, s, es[0]), es[1..], fs);
    }
  }

  lemma RunOne(v: Variant, s: State, e: Event)
    requires WellFormed(s)
    ensures Run(v, s, [e]) == Step(v, s, e)
  {
    hide Step;
    assert [e][1..] == [];
  }

  predicate Pending(s: State, i: nat)
    requires WellFormed(s) && i < NUM_TASKS
  {
    s.queue[i] != Null
  }

  /** Main is past the test of slot i and has not cleared it yet. */
  predicate Serving(s: State, i: nat) {
    (s.pc.Emit? || s.pc.Call? || s.pc.Body? || s.pc.Clear?) && s.pc.i == i
  }
}
