/** Load and loss: exactly when every release is served, and how many ticks the scheduler can see at all. */
module SchedulerOverload {
  import opened Arithmetic
  import opened Ctrace
  import opened CtraceTest
  import opened SchedulerModel
  import opened SchedulerSafety
  import opened SchedulerTiming

  /** At most bound ticks fall within any sweep of the run, the stretch before the first sweep included. */
  predicate Paced(v: Variant, s: State, es: seq<Event>, bound: nat)
    requires WellFormed(s)
    decreases |es|
  {
    && (s.pc == Done || s.sweepTicks <= bound)
    && (es != [] ==> Paced(v, Step(v, s, es[0]), es[1..], bound))
  }

  /** What holds in every state of every run. */
  predicate Steady(s: State)
    requires WellFormed(s)
  {
    Safe(s) && BodyOk(s) && Conserved(s) && DueBy1000(s)
  }

  lemma StepSteady(v: Variant, s: State, e: Event)
    requires WellFormed(s) && Steady(s)
    ensures Steady(Step(v, s, e))
  {
    hide Step, Safe, BodyOk, Conserved, DueBy1000;
    RunDueBy1000(v, s, [e]);
    RunOne(v, s, e);
  }

  lemma InitialSteady(s: State)
    requires Initial(s)
    ensures WellFormed(s) && Steady(s)
  {
    InitialConserved(s);
  }

  // ---------------------------------------------------------------------------------------------
  // Return, counted in ticks
  // ---------------------------------------------------------------------------------------------

  /** Past 999 ticks main is in the sweep in which the 1000 ms task comes due, or in the next one, which serves it. */
  predicate OnTime(s: State, bound: nat) {
    s.pc != Done ==>
      s.total <= 999 + s.sweepTicks + if InSweep(s.pc) || (s.pc == Head && !s.enabled) then bound else 0
  }

  lemma MainSweepTicks(v: Variant, s: State)
    requires WellFormed(s)
    ensures MainStep(v, s).sweepTicks == if s.pc == Head && s.enabled then 0 else s.sweepTicks
  {
    hide Words, Program, TaskId;
  }

  lemma MainOnTime(v: Variant, s: State, bound: nat)
    requires WellFormed(s) && Steady(s) && OnTime(s, bound) && s.sweepTicks <= bound
    ensures OnTime(MainStep(v, s), bound)
  {
    MainMoves(v, s);
    MainSweepTicks(v, s);
    StepTotal(v, s, Main);
    hide MainStep, Conserved;
  }

  lemma TickOnTime(s: State, bound: nat)
    requires WellFormed(s) && OnTime(s, bound)
    ensures OnTime(TickStep(s), bound)
  {
  }

  lemma {:induction false} RunOnTime(v: Variant, s: State, es: seq<Event>, bound: nat)
    requires WellFormed(s) && Steady(s) && OnTime(s, bound) && Paced(v, s, es, bound)
    ensures OnTime(Run(v, s, es), bound)
    ensures Run(v, s, es).pc == Done || Run(v, s, es).sweepTicks <= bound
    decreases |es|
  {
    if s.pc == Done {
      DoneStays(v, s, es);
    } else if es != [] {
      StepSteady(v, s, es[0]);
      if es[0].Tick? {
        TickOnTime(s, bound);
      } else {
        MainOnTime(v, s, bound);
      }
      hide Step, Steady, OnTime;
      RunOnTime(v, Step(v, s, es[0]), es[1..], bound);
    }
  }

  /** The life of the scheduler in ticks: if at most bound ticks fall within any sweep, scheduler_run has returned once
      more than 999 + 2 * bound ticks have come, in every interleaving. */
  lemma ReturnsInTicks(v: Variant, s: State, es: seq<Event>, bound: nat)
    requires Initial(s) && Paced(v, s, es, bound)
    requires Run(v, s, es).total > 999 + 2 * bound
    ensures Run(v, s, es).pc == Done
  {
    InitialSteady(s);
    RunOnTime(v, s, es, bound);
  }

  // ---------------------------------------------------------------------------------------------
  // No overload
  // ---------------------------------------------------------------------------------------------

  /** A pending release of task i came in this sweep, or in the one before and main has still to get to it. */
  predicate Recent(s: State, bound: nat, i: nat)
    requires WellFormed(s) && i < NUM_TASKS
  {
    Pending(s, i) ==>
      var age := s.total % Period(i) + 1;
      age <= s.sweepTicks || (InSweep(s.pc) && s.pc.i <= i && age <= bound + s.sweepTicks)
  }

  lemma NotLate(s: State, bound: nat, i: nat)
    requires Safe(s) && Conserved(s) && i < NUM_TASKS
    requires 2 * bound <= Period(i) && s.total + 1 < WORD_MODULUS && s.sweepTicks + 1 <= bound
    requires Recent(s, bound, i)
    ensures TickStep(s).absorbed[i] == s.absorbed[i]
    ensures Recent(TickStep(s), bound, i)
  {
    var p := Period(i);
    QuotientStep(s.total, p);
    assert NextTicks(s.ticks) == s.total + 1;
  }

  /** What a main step leaves alone. */
  lemma MainLeaves(v: Variant, s: State, i: nat)
    requires WellFormed(s) && i < NUM_TASKS
    ensures var t := MainStep(v, s);
            t.absorbed[i] == s.absorbed[i] && t.queue[i] == if s.pc == Clear(i) then Null else s.queue[i]
  {
    hide Words, Program, TaskId;
  }

  lemma MainRecent(v: Variant, s: State, bound: nat, i: nat)
    requires Safe(s) && BodyOk(s) && i < NUM_TASKS
    requires s.sweepTicks <= bound && Recent(s, bound, i)
    ensures MainStep(v, s).absorbed[i] == s.absorbed[i]
    ensures MainStep(v, s).pc == Done || Recent(MainStep(v, s), bound, i)
  {
    MainLeaves(v, s, i);
    MainMoves(v, s);
    MainSweepTicks(v, s);
    StepTotal(v, s, Main);
    hide MainStep;
  }

  lemma StepRecent(v: Variant, s: State, e: Event, bound: nat, i: nat)
    requires WellFormed(s) && Steady(s) && OnTime(s, bound) && i < NUM_TASKS && 2 * bound <= Period(i) && s.pc != Done
    requires s.sweepTicks <= bound && (e.Tick? ==> s.sweepTicks + 1 <= bound)
    requires Recent(s, bound, i) && s.absorbed[i] == 0
    ensures var t := Step(v, s, e);
            t.pc == Done || (t.absorbed[i] == 0 && Recent(t, bound, i))
  {
    if e.Tick? {
      NotLate(s, bound, i);
    } else {
      MainRecent(v, s, bound, i);
    }
    hide MainStep, TickStep, Recent;
  }

  lemma {:induction false} PacedRun(v: Variant, s: State, es: seq<Event>, bound: nat, i: nat)
    requires WellFormed(s) && Steady(s) && OnTime(s, bound) && i < NUM_TASKS && 2 * bound <= Period(i)
    requires Paced(v, s, es, bound)
    requires s.pc == Done || (s.absorbed[i] == 0 && Recent(s, bound, i))
    ensures var t := Run(v, s, es);
            t.pc == Done || t.absorbed[i] == 0
    decreases |es|
  {
    if s.pc == Done {
      DoneStays(v, s, es);
    } else if es != [] {
      var t := Step(v, s, es[0]);
      assert es[0].Tick? ==> t.sweepTicks == s.sweepTicks + 1 && t.pc == s.pc;
      hide Step, Steady, Recent;
      StepSteady(v, s, es[0]);
      RunOnTime(v, s, [es[0]], bound);
      RunOne(v, s, es[0]);
      StepRecent(v, s, es[0], bound, i);
      PacedRun(v, t, es[1..], bound, i);
    }
  }

  /** No overload: if at most bound ticks fall within any sweep and two such sweeps fit into the period of task i, then
      in every interleaving no release of task i is absorbed, and up to the end of the loop the task has been completed
      once for every period elapsed, but for the one that may be pending. */
  lemma NoOverload(v: Variant, s: State, es: seq<Event>, bound: nat, i: nat)
    requires Initial(s) && i < NUM_TASKS
    requires 2 * bound <= Period(i)
    requires Paced(v, s, es, bound) && Run(v, s, es).pc != Done
    ensures var t := Run(v, s, es);
            && t.absorbed[i] == 0
            && t.completed[i] == t.total / Period(i) - if Pending(t, i) then 1 else 0
  {
    InitialSteady(s);
    RunOnTime(v, s, es, bound);
    PacedRun(v, s, es, bound, i);
    RunConserves(v, s, es);
    ConservationByTicks(Run(v, s, es), i);
  }

  // ---------------------------------------------------------------------------------------------
  // Runs in which main and the ticks fall badly
  // ---------------------------------------------------------------------------------------------

  /** A paced run from s to t, both in a state any run may be in. */
  predicate Reaches(v: Variant, s: State, es: seq<Event>, t: State, bound: nat)
    requires WellFormed(s) && WellFormed(t)
  {
    Run(v, s, es) == t && Paced(v, s, es, bound) && Steady(t)
  }

  lemma {:induction false} PacedAppend(v: Variant, s: State, es: seq<Event>, fs: seq<Event>, bound: nat)
    requires WellFormed(s) && Paced(v, s, es, bound) && Paced(v, Run(v, s, es), fs, bound)
    ensures Paced(v, s, es + fs, bound)
    decreases |es|
  {
    hide Step;
    if es == [] {
      assert es + fs == fs;
    } else {
      assert (es + fs)[1..] == es[1..] + fs;
      PacedAppend(v, Step(v, s, es[0]), es[1..], fs, bound);
    }
  }

  lemma ReachesOn(v: Variant, s: State, es: seq<Event>, t: State, fs: seq<Event>, u: State, bound: nat)
    requires WellFormed(s) && WellFormed(t) && WellFormed(u)
    requires Reaches(v, s, es, t, bound) && Reaches(v, t, fs, u, bound)
    ensures Reaches(v, s, es + fs, u, bound)
  {
    hide Run, Paced, Steady;
    RunAppend(v, s, es, fs);
    PacedAppend(v, s, es, fs, bound);
  }

  lemma ReachesStep(v: Variant, s: State, e: Event, bound: nat)
    requires WellFormed(s) && Steady(s) && s.sweepTicks <= bound && Step(v, s, e).sweepTicks <= bound
    ensures Reaches(v, s, [e], Step(v, s, e), bound)
  {
    StepSteady(v, s, e);
    RunOne(v, s, e);
    hide Step, Steady, Run;
    assert Paced(v, Step(v, s, e), [], bound) && [e][1..] == [];
  }

  lemma ReachesSelf(v: Variant, s: State, bound: nat)
    requires WellFormed(s) && Steady(s) && s.sweepTicks <= bound
    ensures Reaches(v, s, [], s, bound)
  {
    hide Steady;
  }

  /** n ticks in a row, main standing still. */
  lemma {:induction false} TicksPass(v: Variant, s: State, n: nat, i: nat, bound: nat)
    returns (es: seq<Event>, t: State)
    requires WellFormed(s) && Steady(s) && i < NUM_TASKS && s.sweepTicks + n <= bound
    ensures WellFormed(t) && Reaches(v, s, es, t, bound)
    ensures t.pc == s.pc && t.enabled == s.enabled && t.completed[i] == s.completed[i]
    ensures t.total == s.total + n && t.sweepTicks == s.sweepTicks + n
    decreases n
  {
    if n == 0 {
      es, t := [], s;
      ReachesSelf(v, s, bound);
    } else {
      var u := Step(v, s, Tick);
      assert u.pc == s.pc && u.enabled == s.enabled && u.completed == s.completed;
      assert u.total == s.total + 1 && u.sweepTicks == s.sweepTicks + 1;
      ReachesStep(v, s, Tick, bound);
      hide Step, Steady, Run, Paced;
      var fs;
      fs, t := TicksPass(v, u, n - 1, i, bound);
      es := [Tick] + fs;
      ReachesOn(v, s, [Tick], u, fs, t, bound);
    }
  }

  /** A task that has not come due yet has an empty slot and no history. */
  lemma NotDueYet(s: State, i: nat)
    requires WellFormed(s) && Steady(s) && i < NUM_TASKS && s.total < Period(i)
    ensures s.queue[i] == Null && s.completed[i] == 0 && !Serving(s, i)
  {
    ReleasesToFirstWrap(s.total, Period(i));
    QuotientUnique(s.total, Period(i), 0, s.total);
  }

  /** Main alone changes neither time nor, outside slot 3, the flag, nor what another slot has completed. */
  lemma MainKeeps(v: Variant, s: State, i: nat)
    requires WellFormed(s) && Steady(s) && InSweep(s.pc) && i < NUM_TASKS
    ensures var t := MainStep(v, s);
            && t.total == s.total && t.sweepTicks == s.sweepTicks
            && (s.pc.i != i || !s.pc.Clear? ==> t.completed[i] == s.completed[i])
            && (s.pc.i != 3 || s.pc.Test? ==> t.enabled == s.enabled)
  {
    hide Words, Program, TaskId;
  }

  /** Main alone leaves its slot; a task not due yet is passed over. */
  lemma {:induction false} LeaveSlot(v: Variant, s: State, i: nat, bound: nat) returns (es: seq<Event>, t: State)
    requires WellFormed(s) && Steady(s) && InSweep(s.pc) && i < NUM_TASKS && s.sweepTicks <= bound
    requires s.pc.i == 3 ==> s.total < Period(3)
    requires s.pc.i == i ==> s.total < Period(i)
    ensures WellFormed(t) && Reaches(v, s, es, t, bound)
    ensures t.pc == NextSlot(s.pc.i) && t.enabled == s.enabled && t.completed[i] == s.completed[i]
    ensures t.total == s.total && t.sweepTicks == s.sweepTicks
    decreases SlotSteps(s.pc)
  {
    var k, u := s.pc.i, MainStep(v, s);
    assert k == i || k == 3 ==> s.pc == Test(k) && !Pending(s, k) by {
      if k == i || k == 3 {
        NotDueYet(s, k);
      }
    }
    MainMoves(v, s);
    MainKeeps(v, s, i);
    ReachesStep(v, s, Main, bound);
    hide MainStep, Steady, Run, Paced;
    if u.pc == NextSlot(k) {
      es, t := [Main], u;
    } else {
      var fs;
      fs, t := LeaveSlot(v, u, i, bound);
      es := [Main] + fs;
      ReachesOn(v, s, [Main], u, fs, t, bound);
    }
  }

  /** Main alone goes on to just behind slot m. */
  lemma {:induction false} SweepOn(v: Variant, s: State, m: nat, i: nat, bound: nat) returns (es: seq<Event>, t: State)
    requires WellFormed(s) && Steady(s) && InSweep(s.pc) && s.pc.i <= m < NUM_TASKS && i < NUM_TASKS
    requires s.sweepTicks <= bound
    requires m == 3 ==> s.total < Period(3)
    requires s.pc.i <= i <= m ==> s.total < Period(i)
    ensures WellFormed(t) && Reaches(v, s, es, t, bound)
    ensures t.pc == NextSlot(m) && t.enabled == s.enabled && t.completed[i] == s.completed[i]
    ensures t.total == s.total && t.sweepTicks == s.sweepTicks
    decreases m - s.pc.i
  {
    hide Steady, Run, Paced;
    es, t := LeaveSlot(v, s, i, bound);
    if s.pc.i < m {
      var u, fs := t, es;
      var gs;
      gs, t := SweepOn(v, u, m, i, bound);
      es := fs + gs;
      ReachesOn(v, s, fs, u, gs, t, bound);
    }
  }

  /** Main alone, finding the flag set, starts a sweep. */
  lemma StartSweep(v: Variant, s: State, i: nat, bound: nat) returns (t: State)
    requires WellFormed(s) && Steady(s) && s.pc == Head && s.enabled && i < NUM_TASKS && s.sweepTicks <= bound
    ensures WellFormed(t) && Reaches(v, s, [Main], t, bound)
    ensures t.pc == Test(0) && t.enabled && t.completed[i] == s.completed[i] && t.total == s.total && t.sweepTicks == 0
  {
    t := MainStep(v, s);
    ReachesStep(v, s, Main, bound);
    hide Run, Paced;
  }

  /** One tick a sweep brings any number of ticks before the task comes due. */
  lemma {:induction false} TicksBySweeps(v: Variant, s: State, n: nat, i: nat, bound: nat)
    returns (es: seq<Event>, t: State)
    requires WellFormed(s) && Steady(s) && s.pc == Test(0) && s.enabled && s.sweepTicks == 0 && i < NUM_TASKS
    requires bound > 0 && s.total <= n < Period(i)
    ensures WellFormed(t) && Reaches(v, s, es, t, bound)
    ensures t.pc == Test(0) && t.enabled && t.sweepTicks == 0 && t.total == n
    decreases n - s.total
  {
    hide Steady, Run, Paced;
    if s.total == n {
      es, t := [], s;
      ReachesSelf(v, s, bound);
    } else {
      var e1, s1 := TicksPass(v, s, 1, i, bound);
      var e2, s2 := SweepOn(v, s1, 3, i, bound);
      var s3 := StartSweep(v, s2, i, bound);
      var e4;
      e4, t := TicksBySweeps(v, s3, n, i, bound);
      ReachesOn(v, s, e1, s1, e2, s2, bound);
      ReachesOn(v, s, e1 + e2, s2, [Main], s3, bound);
      es := e1 + e2 + [Main] + e4;
      ReachesOn(v, s, e1 + e2 + [Main], s3, e4, t, bound);
    }
  }

  /** From the start of the timer to the start of the first sweep. */
  lemma Begin(v: Variant, s: State, i: nat, bound: nat) returns (t: State)
    requires WellFormed(s) && Steady(s) && s.pc == Boot && s.sweepTicks == 0 && i < NUM_TASKS
    ensures WellFormed(t) && Reaches(v, s, [Main] + [Main], t, bound)
    ensures t.pc == Test(0) && t.enabled && t.total == s.total && t.sweepTicks == 0
  {
    var u := MainStep(v, s);
    ReachesStep(v, s, Main, bound);
    hide Run, Paced;
    t := StartSweep(v, u, i, bound);
    ReachesOn(v, s, [Main], u, [Main], t, bound);
  }

  /** The worst case: the task comes due just behind the test of its slot, bound ticks fall in the rest of that sweep
      and bound more before the next one gets to the slot. */
  lemma WorstRun(v: Variant, s: State, i: nat, bound: nat) returns (es: seq<Event>, t: State)
    requires Initial(s) && i < NUM_TASKS && bound > 0
    requires i < 3 ==> Period(i) + bound <= Period(3)
    ensures WellFormed(s) && WellFormed(t) && Reaches(v, s, es, t, bound)
    ensures t.pc == Test(0) && t.total == Period(i) - 1 + 2 * bound && t.completed[i] == 0
  {
    hide Steady, Run, Paced;
    var p := Period(i);
    InitialSteady(s);
    var s1 := Begin(v, s, i, bound);
    var e2, s2 := TicksBySweeps(v, s1, p - 1, i, bound);
    NotDueYet(s2, i);
    var e3, s3 := SweepOn(v, s2, i, i, bound);
    var e4, s4 := TicksPass(v, s3, bound, i, bound);
    ReachesOn(v, s, [Main] + [Main], s1, e2, s2, bound);
    es := [Main] + [Main] + e2;
    ReachesOn(v, s, es, s2, e3, s3, bound);
    es := es + e3;
    ReachesOn(v, s, es, s3, e4, s4, bound);
    es := es + e4;
    var s5 := s4;
    if i < 3 {
      var e5;
      e5, s5 := SweepOn(v, s4, 3, i, bound);
      ReachesOn(v, s, es, s4, e5, s5, bound);
      es := es + e5;
    }
    var s6 := StartSweep(v, s5, i, bound);
    var e7;
    e7, t := TicksPass(v, s6, bound, i, bound);
    ReachesOn(v, s, es, s5, [Main], s6, bound);
    es := es + [Main];
    ReachesOn(v, s, es, s6, e7, t, bound);
    es := es + e7;
  }

  // ---------------------------------------------------------------------------------------------
  // Exactly when
  // ---------------------------------------------------------------------------------------------

  lemma {:induction false} PacedWider(v: Variant, s: State, es: seq<Event>, bound: nat, wider: nat)
    requires WellFormed(s) && Paced(v, s, es, bound) && bound <= wider
    ensures Paced(v, s, es, wider)
    decreases |es|
  {
    hide Step;
    if es != [] {
      PacedWider(v, Step(v, s, es[0]), es[1..], bound, wider);
    }
  }

  /** Two releases, none of them completed: one has been absorbed. */
  lemma TwoReleases(s: State, i: nat)
    requires WellFormed(s) && Steady(s) && i < NUM_TASKS && s.completed[i] == 0
    requires 2 * Period(i) <= s.total < WORD_MODULUS
    ensures s.absorbed[i] > 0
  {
    ConservationByTicks(s, i);
    var p, q := Period(i), s.total / Period(i);
    assert q >= 2 by {
      assert s.total == q * p + s.total % p;
      assert q != 0 && q != 1;
    }
  }

  ghost predicate NeverAbsorbs(v: Variant, s: State, bound: nat, i: nat)
    requires WellFormed(s) && i < NUM_TASKS
  {
    forall es :: Paced(v, s, es, bound) && Run(v, s, es).pc != Done ==> Run(v, s, es).absorbed[i] == 0
  }

  /** The load bound is exact, for every task and every bound: no interleaving with at most bound ticks in a sweep
      absorbs a release of task i if and only if two such sweeps fit into its period. */
  lemma OverloadExactly(v: Variant, s: State, bound: nat, i: nat)
    requires Initial(s) && i < NUM_TASKS
    ensures NeverAbsorbs(v, s, bound, i) <==> 2 * bound <= Period(i)
  {
    hide Run, Paced;
    if 2 * bound <= Period(i) {
      forall es | Paced(v, s, es, bound) && Run(v, s, es).pc != Done
        ensures Run(v, s, es).absorbed[i] == 0
      {
        NoOverload(v, s, es, bound, i);
      }
    } else {
      var b := Period(i) / 2 + 1;
      var es, t := WorstRun(v, s, i, b);
      PacedWider(v, s, es, b, bound);
      TwoReleases(t, i);
      assert Run(v, s, es).absorbed[i] > 0;
    }
  }

  ghost predicate AlwaysReturned(v: Variant, s: State, bound: nat, limit: nat)
    requires WellFormed(s)
  {
    forall es :: Paced(v, s, es, bound) && Run(v, s, es).total > limit ==> Run(v, s, es).pc == Done
  }

  /** 999 + 2 * bound is the exact number of ticks after which scheduler_run has returned in every interleaving. */
  lemma ReturnsExactly(v: Variant, s: State, bound: nat, limit: nat)
    requires Initial(s) && bound > 0
    ensures AlwaysReturned(v, s, bound, limit) <==> limit >= 999 + 2 * bound
  {
    hide Run, Paced;
    if limit >= 999 + 2 * bound {
      forall es | Paced(v, s, es, bound) && Run(v, s, es).total > limit
        ensures Run(v, s, es).pc == Done
      {
        ReturnsInTicks(v, s, es, bound);
      }
    } else {
      var es, t := WorstRun(v, s, 3, bound);
      assert Run(v, s, es).total > limit && Run(v, s, es).pc == Test(0);
    }
  }
}
