/** scheduler.c as a program: the volatile globals are fields, and a tick may come before every shared access. */
module Scheduler {
  import opened Ctrace
  import opened CtraceTest
  import opened Wrappers
  import opened SchedulerModel
  import opened SchedulerSafety
  import opened SchedulerTiming
  import opened SchedulerTrace

  // ---------------------------------------------------------------------------------------------
  // Runs driven by an interrupt schedule
  // ---------------------------------------------------------------------------------------------

  function Ticks(s: State, n: nat): (t: State)
    requires WellFormed(s)
    ensures WellFormed(t)
  {
    if n == 0 then s else TickStep(Ticks(s, n - 1))
  }

  /** Run the task that has been entered to its end. */
  function FinishBody(v: Variant, s: State): (t: State)
    requires WellFormed(s)
    ensures WellFormed(t)
    decreases if s.pc.Body? then |s.pc.todo| + 1 else 0
  {
    if s.pc.Body? then FinishBody(v, MainStep(v, s)) else s
  }

  /** One shared access, preceded by n timer interrupts; ticks that fall inside a task are counted at its return. */
  function Access(v: Variant, s: State, n: nat): (t: State)
    requires WellFormed(s)
    ensures WellFormed(t)
  {
    FinishBody(v, MainStep(v, Ticks(s, n)))
  }

  /** The interrupts that arrive before access k; none after the end of the schedule. */
  function At(irq: seq<nat>, k: nat): nat {
    if k < |irq| then irq[k] else 0
  }

  /** The state after accesses k..m under an interrupt schedule. */
  function Drive(v: Variant, s: State, irq: seq<nat>, k: nat, m: nat): (t: State)
    requires WellFormed(s) && k <= m
    ensures WellFormed(t)
    decreases m
  {
    if m == k then s else Access(v, Drive(v, s, irq, k, m - 1), At(irq, m - 1))
  }

  /** Interrupts that arrive before the first n accesses. */
  function TickSum(irq: seq<nat>, n: nat): nat {
    if n == 0 then 0 else TickSum(irq, n - 1) + At(irq, n - 1)
  }

  lemma {:induction false} TickSumPrefix(irq: seq<nat>, n: nat, k: nat)
    requires k <= |irq|
    ensures TickSum(irq + [n], k) == TickSum(irq, k)
    decreases k
  {
    if k > 0 {
      TickSumPrefix(irq, n, k - 1);
    }
  }

  /** One entry more in the schedule is as many interrupts more, all before the access behind the others. */
  lemma ScheduleGrows(irq: seq<nat>, n: nat)
    ensures At(irq + [n], |irq|) == n
    ensures TickSum(irq + [n], |irq| + 1) == TickSum(irq, |irq|) + n
    ensures TickSum([], 0) == 0
  {
    TickSumPrefix(irq, n, |irq|);
  }

  lemma {:induction false} TicksRun(v: Variant, s: State, n: nat) returns (es: seq<Event>)
    requires WellFormed(s)
    ensures Run(v, s, es) == Ticks(s, n)
  {
    if n == 0 {
      es := [];
    } else {
      var fs := TicksRun(v, s, n - 1);
      es := fs + [Tick];
      RunAppend(v, s, fs, [Tick]);
      RunOne(v, Ticks(s, n - 1), Tick);
    }
  }

  lemma {:induction false} FinishRun(v: Variant, s: State) returns (es: seq<Event>)
    requires WellFormed(s)
    ensures Run(v, s, es) == FinishBody(v, s)
    decreases if s.pc.Body? then |s.pc.todo| + 1 else 0
  {
    if s.pc.Body? {
      var t := MainStep(v, s);
      var fs := FinishRun(v, t);
      es := [Main] + fs;
      assert es[0] == Main && es[1..] == fs;
    } else {
      es := [];
    }
  }

  lemma AccessRun(v: Variant, s: State, n: nat) returns (es: seq<Event>)
    requires WellFormed(s)
    ensures Run(v, s, es) == Access(v, s, n)
  {
    var fs := TicksRun(v, s, n);
    var t := Ticks(s, n);
    var u := MainStep(v, t);
    var gs := FinishRun(v, u);
    es := fs + ([Main] + gs);
    RunAppend(v, s, fs, [Main] + gs);
    assert ([Main] + gs)[0] == Main && ([Main] + gs)[1..] == gs;
  }

  /** A driven run is a run: everything shown for all interleavings holds of it. */
  lemma {:induction false} DriveRun(v: Variant, s: State, irq: seq<nat>, k: nat, m: nat) returns (es: seq<Event>)
    requires WellFormed(s) && k <= m
    ensures Run(v, s, es) == Drive(v, s, irq, k, m)
    decreases m
  {
    if m == k {
      es := [];
    } else {
      var fs := DriveRun(v, s, irq, k, m - 1);
      var gs := AccessRun(v, Drive(v, s, irq, k, m - 1), At(irq, m - 1));
      es := fs + gs;
      RunAppend(v, s, fs, gs);
    }
  }

  /** The effect of the 100 ms task body: all words of the test phase, and one count. */
  lemma {:induction false} FinishTest(v: Variant, s: State, ws: seq<bv32>)
    requires WellFormed(s) && s.pc.Body? && s.pc.todo == WriteAll(ws) + [Count]
    ensures FinishBody(v, s) == s.(pc := Clear(s.pc.i), words := s.words + ws, counter := NextCounter(s.counter))
    decreases |ws|
  {
    var todo := s.pc.todo;
    var t := MainStep(v, s);
    if ws == [] {
      assert todo == [Count] && todo[1..] == [];
      BodyStep(v, s);
      FinishEmpty(v, t);
      hide MainStep;
      assert s.words + ws == s.words;
    } else {
      assert todo[0] == Write(ws[0]) && todo[1..] == WriteAll(ws[1..]) + [Count];
      BodyStep(v, s);
      FinishTest(v, t, ws[1..]);
      hide MainStep;
      assert s.words + [ws[0]] + ws[1..] == s.words + ws;
    }
  }

  lemma BodyStep(v: Variant, s: State)
    requires WellFormed(s) && s.pc.Body? && s.pc.todo != []
    ensures MainStep(v, s) == Perform(s.(pc := Body(s.pc.i, s.pc.todo[1..])), s.pc.todo[0])
    ensures FinishBody(v, s) == FinishBody(v, MainStep(v, s))
  {
  }

  lemma FinishStop(v: Variant, s: State)
    requires WellFormed(s) && s.pc.Body? && s.pc.todo == [Stop]
    ensures FinishBody(v, s) == s.(pc := Clear(s.pc.i), enabled := false)
  {
    var t := MainStep(v, s);
    assert s.pc.todo[1..] == [];
    assert t == s.(pc := Body(s.pc.i, []), enabled := false);
    assert FinishBody(v, t) == MainStep(v, t);
  }

  lemma FinishEmpty(v: Variant, s: State)
    requires WellFormed(s) && s.pc.Body? && s.pc.todo == []
    ensures FinishBody(v, s) == s.(pc := Clear(s.pc.i))
  {
    assert FinishBody(v, MainStep(v, s)) == MainStep(v, s);
  }

  lemma {:induction false} TicksSound(s: State, n: nat)
    requires WellFormed(s) && Sound(s)
    ensures Sound(Ticks(s, n))
    ensures Ticks(s, n).total == s.total + n
    ensures Ticks(s, n).pc == s.pc && Ticks(s, n).enabled == s.enabled
    ensures Ticks(s, n).words == s.words && Ticks(s, n).counter == s.counter && Ticks(s, n).platform == s.platform
    ensures forall i :: 0 <= i < NUM_TASKS && s.queue[i] != Null ==> Ticks(s, n).queue[i] == s.queue[i]
  {
    if n > 0 {
      TicksSound(s, n - 1);
      var t := Ticks(s, n - 1);
      StepSound(Loop, t, Tick);
      hide Sound;
    }
  }

  lemma {:induction false} FinishSound(v: Variant, s: State)
    requires WellFormed(s) && Sound(s)
    ensures Sound(FinishBody(v, s))
    ensures FinishBody(v, s).total == s.total
    ensures FinishBody(v, s).pc.Done? ==> s.pc.Done?
    ensures s.pc != Boot && ExitDue(s) ==>
              ExitDue(FinishBody(v, s)) && StepsToReturn(FinishBody(v, s)) <= StepsToReturn(s)
    decreases if s.pc.Body? then |s.pc.todo| + 1 else 0
  {
    if s.pc.Body? {
      StepSound(v, s, Main);
      StepTotal(v, s, Main);
      if ExitDue(s) {
        StepExitDue(v, s, Main);
        MainReturns(v, s);
      }
      MainMoves(v, s);
      FinishSound(v, MainStep(v, s));
    }
  }

  /** An access keeps all invariants and counts its ticks. */
  lemma AccessSound(v: Variant, s: State, n: nat)
    requires WellFormed(s) && Sound(s)
    ensures Sound(Access(v, s, n))
    ensures Access(v, s, n).total == s.total + n
  {
    hide MainStep, Ticks, FinishBody, Sound;
    TicksSound(s, n);
    var t := Ticks(s, n);
    StepSound(v, t, Main);
    StepTotal(v, t, Main);
    FinishSound(v, MainStep(v, t));
  }

  /** In t an overdue loop is nearer to its end than in s. */
  predicate Nearer(s: State, t: State)
    requires WellFormed(s) && WellFormed(t)
  {
    s.pc != Boot && ExitDue(s) ==>
      && t.pc != Boot && ExitDue(t)
      && StepsToReturn(t) <= StepsToReturn(s)
      && (s.pc != Done ==> StepsToReturn(t) < StepsToReturn(s))
  }

  lemma MainNearer(v: Variant, s: State)
    requires WellFormed(s) && Sound(s)
    ensures Nearer(s, MainStep(v, s))
  {
    MainMoves(v, s);
    if s.pc != Boot && ExitDue(s) {
      StepExitDue(v, s, Main);
      if s.pc != Done {
        MainReturns(v, s);
      }
    }
    hide MainStep, Sound;
  }

  lemma FinishNearer(v: Variant, s: State, t: State)
    requires Sound(t) && WellFormed(s) && Nearer(s, t)
    ensures Nearer(s, FinishBody(v, t))
  {
    FinishKeepsBoot(v, t);
    FinishSound(v, t);
    hide MainStep, FinishBody, Sound;
  }

  lemma AccessNearer(v: Variant, s: State, n: nat)
    requires WellFormed(s) && Sound(s)
    ensures Nearer(s, Access(v, s, n))
  {
    hide MainStep, Ticks, FinishBody, Sound;
    TicksSound(s, n);
    var t := Ticks(s, n);
    MainNearer(v, t);
    StepSound(v, t, Main);
    FinishNearer(v, s, MainStep(v, t));
  }

  lemma {:induction false} FinishKeepsBoot(v: Variant, s: State)
    requires WellFormed(s) && Sound(s)
    ensures s.pc != Boot ==> FinishBody(v, s).pc != Boot
    decreases if s.pc.Body? then |s.pc.todo| + 1 else 0
  {
    if s.pc.Body? {
      StepSound(v, s, Main);
      MainMoves(v, s);
      FinishKeepsBoot(v, MainStep(v, s));
    }
  }

  /** A driven run keeps all invariants and counts all its ticks. */
  lemma {:induction false} DriveSound(v: Variant, s: State, irq: seq<nat>, k: nat, m: nat)
    requires WellFormed(s) && Sound(s) && k <= m && s.total == TickSum(irq, k)
    ensures Sound(Drive(v, s, irq, k, m))
    ensures Drive(v, s, irq, k, m).total == TickSum(irq, m)
    decreases m
  {
    hide Access, Sound;
    if k < m {
      DriveSound(v, s, irq, k, m - 1);
      AccessSound(v, Drive(v, s, irq, k, m - 1), At(irq, m - 1));
    }
  }

  /** A driven run brings an overdue loop nearer to its end. */
  lemma {:induction false} DriveNearer(v: Variant, s: State, irq: seq<nat>, k: nat, m: nat)
    requires WellFormed(s) && Sound(s) && k < m && s.total == TickSum(irq, k)
    ensures Nearer(s, Drive(v, s, irq, k, m))
    decreases m
  {
    hide Access, Sound, Nearer;
    var t := Drive(v, s, irq, k, m - 1);
    DriveSound(v, s, irq, k, m - 1);
    AccessNearer(v, t, At(irq, m - 1));
    if k < m - 1 {
      DriveNearer(v, s, irq, k, m - 1);
      NearerTwice(s, t, Access(v, t, At(irq, m - 1)));
    }
  }

  lemma NearerTwice(s: State, t: State, u: State)
    requires WellFormed(s) && WellFormed(t) && WellFormed(u) && Nearer(s, t) && Nearer(t, u)
    ensures Nearer(s, u)
  {
  }

  /** The loop and the unrolled sweep, driven alike, go through the same states. */
  lemma {:induction false} DrivesAgree(s: State, irq: seq<nat>, k: nat, m: nat)
    requires WellFormed(s) && Sound(s) && k <= m && s.total == TickSum(irq, k)
    ensures Drive(Loop, s, irq, k, m) == Drive(Unrolled, s, irq, k, m)
    decreases m
  {
    hide Access, Sound;
    if k < m {
      DrivesAgree(s, irq, k, m - 1);
      DriveSound(Loop, s, irq, k, m - 1);
      AccessAlike(Drive(Loop, s, irq, k, m - 1), At(irq, m - 1));
    }
  }

  lemma AccessAlike(s: State, n: nat)
    requires WellFormed(s) && Sound(s)
    ensures Access(Loop, s, n) == Access(Unrolled, s, n)
  {
    TicksSound(s, n);
    var u := Ticks(s, n);
    VariantsStepAlike(u);
    StepSound(Loop, u, Main);
    FinishAlike(MainStep(Loop, u));
    hide MainStep, Sound, FinishBody, Ticks;
  }

  lemma {:induction false} FinishAlike(s: State)
    requires WellFormed(s) && Sound(s)
    ensures FinishBody(Loop, s) == FinishBody(Unrolled, s)
    decreases if s.pc.Body? then |s.pc.todo| + 1 else 0
  {
    if s.pc.Body? {
      VariantsStepAlike(s);
      StepSound(Loop, s, Main);
      FinishAlike(MainStep(Loop, s));
    }
  }

  lemma {:induction false} TickSumGrows(irq: seq<nat>, k: nat, m: nat)
    requires k <= m
    ensures TickSum(irq, k) <= TickSum(irq, m)
  {
    if k < m {
      TickSumGrows(irq, k, m - 1);
    }
  }

  lemma SoundWellFormed(s: State)
    requires WellFormed(s) && Sound(s)
    ensures WellFormed(s) && |s.queue| == NUM_TASKS && s.ticks < WORD_MODULUS && s.counter < WORD_MODULUS
  {
  }

  // What the single accesses do to a sound state.

  lemma HeadEffect(v: Variant, s: State)
    requires WellFormed(s) && Sound(s) && s.pc == Head
    ensures WellFormed(s)
    ensures var t := MainStep(v, s);
            && Sound(t) && FinishBody(v, t) == t
            && t.pc == (if s.enabled then Test(0) else Done)
            && t.queue == s.queue && t.enabled == s.enabled && t.ticks == s.ticks && t.counter == s.counter
            && t.platform == s.platform && t.words == s.words
  {
    StepSound(v, s, Main);
    hide Sound;
  }

  lemma SlotEffect(v: Variant, s: State, i: nat)
    requires WellFormed(s) && Sound(s) && i < NUM_TASKS && s.pc == Test(i)
    ensures WellFormed(s)
    ensures var t := MainStep(v, s);
            Sound(t) && FinishBody(v, t) == t && t == s.(pc := if s.queue[i] != Null then Emit(i) else NextSlot(i))
  {
    StepSound(v, s, Main);
    hide Sound;
  }

  lemma AnnounceEffect(v: Variant, s: State, i: nat)
    requires WellFormed(s) && Sound(s) && i < NUM_TASKS && s.pc == Emit(i)
    ensures WellFormed(s) && |s.queue| == NUM_TASKS && s.queue[i] == Task(i)
    ensures var t := MainStep(v, s);
            && Sound(t) && FinishBody(v, t) == t && t.pc == Call(i)
            && t.queue == s.queue && t.enabled == s.enabled && t.ticks == s.ticks && t.counter == s.counter
            && t.platform == s.platform
            && forall base: seq<bv32> :: base + s.words + Words(Owner(TaskId(i))) == base + t.words
  {
    assert Serving(s, i);
    StepSound(v, s, Main);
    hide Words, TaskId, Sound;
  }

  lemma ClearEffect(v: Variant, s: State, i: nat)
    requires WellFormed(s) && Sound(s) && i < NUM_TASKS && s.pc == Clear(i)
    ensures WellFormed(s) && |s.queue| == NUM_TASKS
    ensures var t := MainStep(v, s);
            && Sound(t) && FinishBody(v, t) == t && t.pc == NextSlot(i)
            && t.queue == s.queue[i := Null] && t.enabled == s.enabled && t.ticks == s.ticks && t.counter == s.counter
            && t.platform == s.platform && t.words == s.words
  {
    StepSound(v, s, Main);
    hide Sound;
  }

  lemma PlainEffect(v: Variant, s: State, task: nat)
    requires WellFormed(s) && Sound(s) && task < NUM_TASKS && task != 2
    requires s.pc == Body(task, Program(s.platform, task, s.counter))
    ensures WellFormed(s) && Sound(FinishBody(v, s))
    ensures FinishBody(v, s) == s.(pc := Clear(task), enabled := s.enabled && task != 3)
  {
    SoundWellFormed(s);
    FinishSound(v, s);
    FinishTask(v, s, task);
    hide Sound, FinishBody, Program;
  }

  // ---------------------------------------------------------------------------------------------
  // The program
  // ---------------------------------------------------------------------------------------------

  class SchedulerProgram {
    const queue: array<Slot>
    var enabled: bool
    var ticks: nat
    const unit: TraceUnit
    const test: TestProgram

    // The environment: irq[k] timer interrupts arrive before shared access k.
    const irq: seq<nat>
    var accesses: nat

    // The state of the transition system, and what the command register had received before.
    ghost var st: State
    ghost var base: seq<bv32>

    ghost predicate Wired()
      reads this
    {
      queue.Length == NUM_TASKS && test.unit == unit
    }

    ghost predicate Valid()
      reads this, queue, unit, test
    {
      && Wired()
      && WellFormed(st) && Sound(st)
      && queue[..] == st.queue && enabled == st.enabled && ticks == st.ticks
      && test.counter == st.counter && test.platform == st.platform
      && unit.csr == base + st.words
    }

    constructor (queue: array<Slot>, test: TestProgram, irq: seq<nat>, enabled: bool, ticks: nat)
      requires queue.Length == NUM_TASKS
      ensures Wired() && this.queue == queue && this.test == test && this.unit == test.unit && this.irq == irq
    {
      this.queue := queue;
      this.test := test;
      this.unit := test.unit;
      this.irq := irq;
      this.enabled := enabled;
      this.ticks := ticks;
      this.accesses := 0;
    }

    /** scheduler_init up to the start of the timer; scheduler_enable is the first access. */
    method Init()
      requires Wired() && test.counter < WORD_MODULUS
      modifies this, queue
      ensures Valid() && Initial(st) && accesses == 0
      ensures st.counter == test.counter == old(test.counter) && base == unit.csr == old(unit.csr)
    {
      ticks := 0;
      for i := 0 to NUM_TASKS
        invariant forall k :: 0 <= k < i ==> queue[k] == Null
        invariant Wired() && ticks == 0
      {
        queue[i] := Null;
      }
      accesses := 0;
      base := unit.csr;
      st := State(test.platform, Boot, [Null, Null, Null, Null], enabled, 0, test.counter, [],
                  0, [0, 0, 0, 0], [0, 0, 0, 0], 0, []);
      InitialSound(st);
      assert queue[..] == [Null, Null, Null, Null];
    }

    method ReleaseDue(timeInMs: nat)
      requires Wired()
      modifies queue
      ensures queue[..] == Release(old(queue[..]), timeInMs)
    {
      for i := 0 to NUM_TASKS
        invariant forall k :: 0 <= k < i ==> queue[k] == if timeInMs % Period(k) == 0 then Task(k) else old(queue[k])
        invariant forall k :: i <= k < NUM_TASKS ==> queue[k] == old(queue[k])
      {
        if timeInMs % Period(i) == 0 {
          queue[i] := Task(i);
        }
      }
    }

    /** scheduler_next: the timer interrupt releases every task whose period divides the tick count. */
    method Next()
      requires Valid()
      modifies this`ticks, this`st, queue
      ensures Valid() && st == TickStep(old(st))
    {
      StepSound(Loop, st, Tick);
      ticks := if ticks + 1 == WORD_MODULUS then 0 else ticks + 1;
      ReleaseDue(ticks);
      st := TickStep(st);
      hide Sound;
    }

    /** The interrupts that arrive before the next shared access. */
    method Preempt()
      requires Valid()
      modifies this`accesses, this`ticks, this`st, queue
      ensures Valid() && st == Ticks(old(st), At(irq, old(accesses))) && accesses == old(accesses) + 1
      ensures st.pc == old(st).pc && st.enabled == old(st).enabled
    {
      hide Sound, TickStep;
      var n := At(irq, accesses);
      accesses := accesses + 1;
      TicksSound(st, n);
      for k := 0 to n
        invariant Valid() && st == Ticks(old(st), k) && accesses == old(accesses) + 1
      {
        Next();
      }
    }

    /** The loop reads scheduler_enabled. */
    method ReadEnabled(ghost v: Variant) returns (on: bool)
      requires Valid() && st.pc == Head
      modifies this`accesses, this`ticks, this`st, queue
      ensures Valid() && st == Access(v, old(st), At(irq, old(accesses))) && accesses == old(accesses) + 1
      ensures st.pc == if on then Test(0) else Done
    {
      hide Sound, MainStep, FinishBody, Ticks;
      Preempt();
      on := enabled;
      HeadEffect(v, st);
      st := MainStep(v, st);
    }

    /** Is slot i occupied? */
    method TestSlot(ghost v: Variant, i: nat) returns (occupied: bool)
      requires Valid() && i < NUM_TASKS && st.pc == Test(i)
      modifies this`accesses, this`ticks, this`st, queue
      ensures Valid() && st == Access(v, old(st), At(irq, old(accesses))) && accesses == old(accesses) + 1
      ensures st.pc == if occupied then Emit(i) else NextSlot(i)
    {
      hide Sound, MainStep, FinishBody, Ticks;
      Preempt();
      occupied := queue[i] != Null;
      SlotEffect(v, st, i);
      st := MainStep(v, st);
    }

    /** Read the id through the slot and announce the task. */
    method Announce(ghost v: Variant, i: nat)
      requires Valid() && i < NUM_TASKS && st.pc == Emit(i)
      modifies this`accesses, this`ticks, this`st, queue, unit
      ensures Valid() && st == Access(v, old(st), At(irq, old(accesses))) && accesses == old(accesses) + 1
      ensures st.pc == Call(i)
    {
      hide Sound, MainStep, FinishBody, Ticks, Words, TaskId, WellFormed;
      Preempt();
      AnnounceEffect(v, st, i);
      var slot := queue[i];
      unit.OwnershipTrace(TaskId(slot.index));
      st := MainStep(v, st);
    }

    method ClearSlot(ghost v: Variant, i: nat)
      requires Valid() && i < NUM_TASKS && st.pc == Clear(i)
      modifies this`accesses, this`ticks, this`st, queue
      ensures Valid() && st == Access(v, old(st), At(irq, old(accesses))) && accesses == old(accesses) + 1
      ensures st.pc == NextSlot(i)
    {
      hide Sound, MainStep, FinishBody, Ticks, WellFormed;
      Preempt();
      ClearEffect(v, st, i);
      queue[i] := Null;
      st := MainStep(v, st);
    }

    // The task bodies, as far as they reach the trace or the scheduler.

    method IdleTask(ghost v: Variant, task: nat)
      requires Valid() && task < 2 && st.pc == Body(task, Program(st.platform, task, st.counter))
      modifies this`st
      ensures Valid() && st == FinishBody(v, old(st)) && st.pc == Clear(task)
    {
      hide Sound, FinishBody, Program, WellFormed;
      PlainEffect(v, st, task);
      st := FinishBody(v, st);
    }

    method Task100ms(ghost v: Variant)
      requires Valid() && st.pc == Body(2, Program(st.platform, 2, st.counter))
      modifies this`st, test`counter, unit
      ensures Valid() && st == FinishBody(v, old(st)) && st.pc == Clear(2)
    {
      hide Sound, FinishBody, Program, TestMessages, Encode, NextCounter, WellFormed;
      TestEffect(v, st);
      ghost var t := FinishBody(v, st);
      test.TestMain();
      st := t;
    }

    method Task1000ms(ghost v: Variant)
      requires Valid() && st.pc == Body(3, Program(st.platform, 3, st.counter))
      modifies this`enabled, this`st
      ensures Valid() && st == FinishBody(v, old(st)) && st.pc == Clear(3)
    {
      hide Sound, FinishBody, Program, WellFormed;
      PlainEffect(v, st, 3);
      ghost var t := FinishBody(v, st);
      Disable();
      st := t;
    }

    method Disable()
      modifies this`enabled
      ensures !enabled
    {
      enabled := false;
    }

    /** The loop calls the entry point through the slot. */
    method CallThroughSlot(i: nat)
      requires Valid() && i < NUM_TASKS && st.pc == Call(i)
      modifies this`accesses, this`ticks, this`enabled, this`st, queue, test`counter, unit
      ensures Valid() && st == Access(Loop, old(st), At(irq, old(accesses))) && accesses == old(accesses) + 1
      ensures st.pc == Clear(i)
    {
      hide Sound, MainStep, FinishBody, Ticks, Program, WellFormed;
      Preempt();
      EnterTask(Loop, st, i);
      var slot := queue[i];
      st := MainStep(Loop, st);
      match slot.index {
        case 2 => Task100ms(Loop);
        case 3 => Task1000ms(Loop);
        case _ => IdleTask(Loop, slot.index);
      }
    }

    /** The unrolled sweep calls the tasks by name. */
    method CallByName(i: nat)
      requires Valid() && i < NUM_TASKS && st.pc == Call(i)
      modifies this`accesses, this`ticks, this`enabled, this`st, queue, test`counter, unit
      ensures Valid() && st == Access(Unrolled, old(st), At(irq, old(accesses))) && accesses == old(accesses) + 1
      ensures st.pc == Clear(i)
    {
      hide Sound, MainStep, FinishBody, Ticks, Program, WellFormed;
      Preempt();
      EnterTask(Unrolled, st, i);
      st := MainStep(Unrolled, st);
      match i {
        case 2 => Task100ms(Unrolled);
        case 3 => Task1000ms(Unrolled);
        case _ => IdleTask(Unrolled, i);
      }
    }

    /** scheduler_enable, after interrupts that may already arrive from the started timer. */
    method Enable(ghost v: Variant)
      requires Valid() && st.pc == Boot
      modifies this`accesses, this`ticks, this`enabled, this`st, queue
      ensures Valid() && st == Access(v, old(st), At(irq, old(accesses))) && accesses == old(accesses) + 1
      ensures st.pc == Head
    {
      hide Sound, MainStep, FinishBody, Ticks, WellFormed;
      Preempt();
      BootEffect(v, st);
      enabled := true;
      st := MainStep(v, st);
    }

    /** One round of the for loop: serve slot i if it is occupied. */
    method ServeSlot(i: nat)
      requires Valid() && i < NUM_TASKS && st.pc == Test(i)
      modifies this`accesses, this`ticks, this`enabled, this`st, queue, test`counter, unit
      ensures Valid() && old(accesses) < accesses && st == Drive(Loop, old(st), irq, old(accesses), accesses)
      ensures st.pc == NextSlot(i)
    {
      hide Sound, Access, Drive;
      ghost var s, k := st, accesses;
      DriveOne(Loop, s, irq, k);
      var occupied := TestSlot(Loop, i);
      if occupied {
        DriveMore(Loop, s, irq, k, accesses);
        Announce(Loop, i);
        DriveMore(Loop, s, irq, k, accesses);
        CallThroughSlot(i);
        DriveMore(Loop, s, irq, k, accesses);
        ClearSlot(Loop, i);
      }
    }

    /** One block of the unrolled sweep. */
    method ServeByName(i: nat)
      requires Valid() && i < NUM_TASKS && st.pc == Test(i)
      modifies this`accesses, this`ticks, this`enabled, this`st, queue, test`counter, unit
      ensures Valid() && old(accesses) < accesses && st == Drive(Unrolled, old(st), irq, old(accesses), accesses)
      ensures st.pc == NextSlot(i)
    {
      hide Sound, Access, Drive;
      ghost var s, k := st, accesses;
      DriveOne(Unrolled, s, irq, k);
      var occupied := TestSlot(Unrolled, i);
      if occupied {
        DriveMore(Unrolled, s, irq, k, accesses);
        Announce(Unrolled, i);
        DriveMore(Unrolled, s, irq, k, accesses);
        CallByName(i);
        DriveMore(Unrolled, s, irq, k, accesses);
        ClearSlot(Unrolled, i);
      }
    }

    /** scheduler_run, first variant. It returns once the interrupt schedule has brought 1000 ticks, and its final state
        is that of the transition system driven by the same interrupts. */
    method RunLoop()
      requires Valid() && st.pc == Head && st.total == TickSum(irq, accesses)
      requires TickSum(irq, |irq|) >= 1000
      modifies this`accesses, this`ticks, this`enabled, this`st, queue, test`counter, unit
      ensures Valid() && st.pc == Done
      ensures old(accesses) <= accesses && st == Drive(Loop, old(st), irq, old(accesses), accesses)
    {
      hide Sound, Access, Drive, StepsToReturn;
      ghost var s, k := st, accesses;
      DriveOne(Loop, s, irq, k);
      var on := ReadEnabled(Loop);
      while on
        invariant Valid() && k < accesses && st == Drive(Loop, s, irq, k, accesses)
        invariant st.pc == if on then Test(0) else Done
        decreases if accesses < |irq| then |irq| - accesses else 0, StepsToReturn(st)
      {
        ghost var t, m := st, accesses;
        DriveNone(Loop, t, irq, m);
        for i := 0 to NUM_TASKS
          invariant Valid() && m <= accesses && st == Drive(Loop, t, irq, m, accesses)
          invariant st.pc == if i < NUM_TASKS then Test(i) else Head
        {
          ghost var a := accesses;
          ServeSlot(i);
          DriveAppend(Loop, t, irq, m, a, accesses);
        }
        DriveMore(Loop, t, irq, m, accesses);
        on := ReadEnabled(Loop);
        DriveAppend(Loop, s, irq, k, m, accesses);
        Progress(Loop, s, irq, k, m, accesses, |irq|);
      }
    }

    /** scheduler_init followed by scheduler_run: the whole life of the scheduler. */
    method Start()
      requires Wired() && test.counter < WORD_MODULUS && TickSum(irq, |irq|) >= 1000
      modifies this, queue, test`counter, unit
      ensures Valid() && st.pc == Done && !enabled
      ensures unit.csr == old(unit.csr) + st.words
      ensures Complete(test.platform, old(test.counter), st.log, st.words)
    {
      hide Sound, Access, Drive, Complete;
      Init();
      ghost var s := st;
      DriveOne(Loop, s, irq, 0);
      Enable(Loop);
      DriveSound(Loop, s, irq, 0, 1);
      RunLoop();
      DriveAppend(Loop, s, irq, 0, 1, accesses);
      FinishedRun(Loop, s, irq, accesses);
    }

    /** The four blocks of the unrolled sweep. */
    method SweepByName()
      requires Valid() && st.pc == Test(0)
      modifies this`accesses, this`ticks, this`enabled, this`st, queue, test`counter, unit
      ensures Valid() && old(accesses) < accesses && st == Drive(Unrolled, old(st), irq, old(accesses), accesses)
      ensures st.pc == Head
    {
      hide Sound, Access, Drive, WellFormed;
      ghost var t, m := st, accesses;
      ServeByName(0);
      ghost var a := accesses;
      ServeByName(1);
      DriveAppend(Unrolled, t, irq, m, a, accesses);
      a := accesses;
      ServeByName(2);
      DriveAppend(Unrolled, t, irq, m, a, accesses);
      a := accesses;
      ServeByName(3);
      DriveAppend(Unrolled, t, irq, m, a, accesses);
    }

    /** scheduler_run, the #else variant. */
    method RunUnrolled()
      requires Valid() && st.pc == Head && st.total == TickSum(irq, accesses)
      requires TickSum(irq, |irq|) >= 1000
      modifies this`accesses, this`ticks, this`enabled, this`st, queue, test`counter, unit
      ensures Valid() && st.pc == Done
      ensures old(accesses) <= accesses && st == Drive(Unrolled, old(st), irq, old(accesses), accesses)
    {
      hide Sound, Access, Drive, StepsToReturn;
      ghost var s, k := st, accesses;
      DriveOne(Unrolled, s, irq, k);
      var on := ReadEnabled(Unrolled);
      while on
        invariant Valid() && k < accesses && st == Drive(Unrolled, s, irq, k, accesses)
        invariant st.pc == if on then Test(0) else Done
        decreases if accesses < |irq| then |irq| - accesses else 0, StepsToReturn(st)
      {
        ghost var t, m := st, accesses;
        SweepByName();
        DriveMore(Unrolled, t, irq, m, accesses);
        on := ReadEnabled(Unrolled);
        DriveAppend(Unrolled, s, irq, k, m, accesses);
        Progress(Unrolled, s, irq, k, m, accesses, |irq|);
      }
    }
  }

  /** A finished driven run, from initialisation on: what it wrote decodes to the announcements of its log and their
      tests, with ids ascending in every sweep, and owner 4 as the last message. */
  lemma FinishedRun(v: Variant, s: State, irq: seq<nat>, m: nat)
    requires WellFormed(s) && Initial(s) && Drive(v, s, irq, 0, m).pc == Done
    ensures var t := Drive(v, s, irq, 0, m);
            && Sound(t) && !t.enabled
            && Complete(s.platform, s.counter, t.log, t.words)
  {
    hide Drive, Run, Sound, Complete;
    var es := DriveRun(v, s, irq, 0, m);
    RunComplete(v, s, es);
    DoneDisabled(Run(v, s, es));
  }

  lemma DoneDisabled(s: State)
    requires Sound(s) && s.pc == Done
    ensures !s.enabled
  {
  }

  lemma DriveNone(v: Variant, s: State, irq: seq<nat>, k: nat)
    requires WellFormed(s)
    ensures Drive(v, s, irq, k, k) == s
  {
  }

  lemma DriveOne(v: Variant, s: State, irq: seq<nat>, k: nat)
    requires WellFormed(s)
    ensures Drive(v, s, irq, k, k + 1) == Access(v, s, At(irq, k))
  {
    hide Access;
    DriveNone(v, s, irq, k);
  }

  lemma DriveMore(v: Variant, s: State, irq: seq<nat>, k: nat, m: nat)
    requires WellFormed(s) && k <= m
    ensures Drive(v, s, irq, k, m + 1) == Access(v, Drive(v, s, irq, k, m), At(irq, m))
  {
    hide Access;
  }

  lemma {:induction false} DriveAppend(v: Variant, s: State, irq: seq<nat>, k: nat, m: nat, a: nat)
    requires WellFormed(s) && k <= m <= a
    ensures Drive(v, Drive(v, s, irq, k, m), irq, m, a) == Drive(v, s, irq, k, a)
    decreases a
  {
    hide Access;
    if m < a {
      DriveAppend(v, s, irq, k, m, a - 1);
    }
  }

  /** A sweep started when all 1000 ticks are in brings the loop nearer to its end. */
  lemma Progress(v: Variant, s: State, irq: seq<nat>, k: nat, m: nat, a: nat, n: nat)
    requires WellFormed(s) && Sound(s) && k <= m < a && s.total == TickSum(irq, k) && TickSum(irq, n) >= 1000
    requires Drive(v, s, irq, k, m).pc == Test(0)
    requires Drive(v, Drive(v, s, irq, k, m), irq, m, a) == Drive(v, s, irq, k, a)
    ensures Sound(Drive(v, s, irq, k, m)) && Sound(Drive(v, s, irq, k, a))
    ensures m < n || StepsToReturn(Drive(v, s, irq, k, a)) < StepsToReturn(Drive(v, s, irq, k, m))
  {
    hide Drive, StepsToReturn, Sound;
    var t := Drive(v, s, irq, k, m);
    DriveSound(v, s, irq, k, m);
    DriveSound(v, s, irq, k, a);
    DriveNearer(v, t, irq, m, a);
    if n <= m {
      TickSumGrows(irq, n, m);
      DueAfter1000(t);
    }
  }

  lemma DueAfter1000(s: State)
    requires WellFormed(s) && Sound(s)
    ensures s.total >= 1000 ==> ExitDue(s)
  {
  }

  lemma BootEffect(v: Variant, s: State)
    requires WellFormed(s) && Sound(s) && s.pc == Boot
    ensures WellFormed(s)
    ensures var t := MainStep(v, s);
            Sound(t) && FinishBody(v, t) == t && t == s.(pc := Head, enabled := true)
  {
    StepSound(v, s, Main);
    hide Sound;
  }

  lemma TestEffect(v: Variant, s: State)
    requires WellFormed(s) && Sound(s) && s.pc == Body(2, Program(s.platform, 2, s.counter))
    ensures WellFormed(s) && s.counter < WORD_MODULUS && Sound(FinishBody(v, s))
    ensures var ws := Encode(TestMessages(s.platform, s.counter % 8));
            && FinishBody(v, s) == s.(pc := Clear(2), words := s.words + ws, counter := NextCounter(s.counter))
            && forall base: seq<bv32> :: base + s.words + ws == base + (s.words + ws)
  {
    SoundWellFormed(s);
    FinishSound(v, s);
    FinishTask(v, s, 2);
    hide Sound, FinishBody, Program, TestMessages, Encode, NextCounter;
  }

  lemma EnterTask(v: Variant, s: State, i: nat)
    requires WellFormed(s) && Sound(s) && i < NUM_TASKS && s.pc == Call(i)
    ensures WellFormed(s) && |s.queue| == NUM_TASKS && s.queue[i] == Task(i)
    ensures MainStep(v, s) == s.(pc := Body(i, Program(s.platform, i, s.counter)))
    ensures Sound(MainStep(v, s))
  {
    assert Serving(s, i);
    StepSound(v, s, Main);
    hide Program, Sound;
  }

  /** What a whole task body does to the state. */
  lemma FinishTask(v: Variant, s: State, task: nat)
    requires WellFormed(s) && task < NUM_TASKS && s.pc == Body(task, Program(s.platform, task, s.counter))
    ensures FinishBody(v, s) ==
            if task == 2 then
              s.(pc := Clear(task), words := s.words + Encode(TestMessages(s.platform, s.counter % 8)),
                 counter := NextCounter(s.counter))
            else if task == 3 then s.(pc := Clear(task), enabled := false)
            else s.(pc := Clear(task))
  {
    if task == 2 {
      FinishTest(v, s, Encode(TestMessages(s.platform, s.counter % 8)));
    } else if task == 3 {
      FinishStop(v, s);
    } else {
      FinishEmpty(v, s);
    }
    hide FinishBody, Encode, TestMessages;
  }
}
