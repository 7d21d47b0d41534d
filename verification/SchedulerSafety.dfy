/** What every step of the scheduler keeps: slots, variants, conservation of releases. */
module SchedulerSafety {
  import opened Arithmetic
  import opened Ctrace
  import opened CtraceTest
  import opened SchedulerModel

  // ---------------------------------------------------------------------------------------------
  // Slots
  // ---------------------------------------------------------------------------------------------

  /** Every slot is NULL or points to its own task; a slot main is serving is not NULL; no NULL was dereferenced. */
  predicate Safe(s: State) {
    && WellFormed(s)
    && (forall i :: 0 <= i < NUM_TASKS ==> s.queue[i] == Null || s.queue[i] == Task(i))
    && (forall i :: 0 <= i < NUM_TASKS && Serving(s, i) ==> s.queue[i] != Null)
    && s.pc != Fault
  }

  lemma TickSafe(s: State)
    requires Safe(s)
    ensures Safe(TickStep(s))
  {
  }

  lemma MainSafe(v: Variant, s: State)
    requires Safe(s)
    ensures Safe(MainStep(v, s))
  {
    hide Words, Program, TaskId;
    var t := MainStep(v, s);
    if s.pc.Clear? {
      assert t.queue == s.queue[s.pc.i := Null];
    } else {
      assert t.queue == s.queue;
      assert s.pc.Emit? ==> s.queue[s.pc.i] != Null by { assert s.pc.Emit? ==> Serving(s, s.pc.i); }
      assert s.pc.Call? ==> s.queue[s.pc.i] != Null by { assert s.pc.Call? ==> Serving(s, s.pc.i); }
      forall i | 0 <= i < NUM_TASKS && Serving(t, i)
        ensures t.queue[i] != Null
      {
        assert s.pc == Test(i) || Serving(s, i);
      }
    }
  }

  /** The table lookup of the loop and the direct call of the unrolled sweep run the same task. */
  lemma VariantsStepAlike(s: State)
    requires Safe(s)
    ensures MainStep(Loop, s) == MainStep(Unrolled, s)
  {
    hide Words, Program, TaskId;
  }

  /** The loop and the unrolled sweep reach the same state, trace included, under every interrupt schedule. */
  lemma {:induction false} VariantsAgree(s: State, es: seq<Event>)
    requires Safe(s)
    ensures Run(Loop, s, es) == Run(Unrolled, s, es)
    decreases |es|
  {
    if es != [] {
      var t := Step(Loop, s, es[0]);
      assert Step(Unrolled, s, es[0]) == t && Safe(t) by {
        VariantsStepAlike(s);
        TickSafe(s);
        MainSafe(Loop, s);
      }
      hide Step;
      VariantsAgree(t, es[1..]);
    }
  }

  /** While main serves slot i, no tick changes the slot: all its volatile reads agree. */
  lemma TickKeepsServedSlot(s: State, i: nat)
    requires Safe(s) && i < NUM_TASKS && Serving(s, i)
    ensures TickStep(s).queue[i] == s.queue[i] == Task(i)
    ensures Serving(TickStep(s), i)
  {
  }

  /** The slot stays occupied until the task has returned: a release that comes before is absorbed. */
  lemma AbsorbedWhileServed(s: State, i: nat, p: nat)
    requires Safe(s) && i < 4 && (s.pc.Emit? || s.pc.Call? || s.pc.Body? || s.pc.Clear?) && s.pc.i == i
    requires p == [5, 10, 100, 1000][i] && (s.ticks + 1) % 0x1_0000_0000 % p == 0
    ensures TickStep(s).absorbed[i] == s.absorbed[i] + 1 && TickStep(s).queue[i] == s.queue[i]
  {
    assert Serving(s, i);
    TickKeepsServedSlot(s, i);
  }

  // ---------------------------------------------------------------------------------------------
  // Releases
  // ---------------------------------------------------------------------------------------------

  /** How often a task of period p is released in the first n ticks; the tick counter wraps at 2^32. */
  function Releases(n: nat, p: nat): nat
    requires p > 0
  {
    if n == 0 then 0 else Releases(n - 1, p) + if n % WORD_MODULUS % p == 0 then 1 else 0
  }

  /** Every release was served, absorbed by an occupied slot, or is still pending. */
  predicate Conserved(s: State) {
    && WellFormed(s)
    && s.ticks == s.total % WORD_MODULUS
    && forall i :: 0 <= i < NUM_TASKS ==>
         Releases(s.total, Period(i)) == s.completed[i] + s.absorbed[i] + if Pending(s, i) then 1 else 0
  }

  lemma WrapStep(n: nat)
    ensures NextTicks(n % WORD_MODULUS) == (n + 1) % WORD_MODULUS
  {
  }

  lemma TickConserved(s: State)
    requires Safe(s) && Conserved(s)
    ensures Conserved(TickStep(s))
  {
    var t := TickStep(s);
    WrapStep(s.total);
    forall i | 0 <= i < NUM_TASKS
      ensures Releases(t.total, Period(i)) == t.completed[i] + t.absorbed[i] + if Pending(t, i) then 1 else 0
    {
      assert Releases(s.total, Period(i)) == s.completed[i] + s.absorbed[i] + if Pending(s, i) then 1 else 0;
    }
  }

  lemma MainConserved(v: Variant, s: State)
    requires Safe(s) && Conserved(s)
    ensures Conserved(MainStep(v, s))
  {
    hide Words, Program, TaskId;
  }

  /** Conservation in every reachable state of every interleaving, however long the run. */
  lemma {:induction false} RunConserves(v: Variant, s: State, es: seq<Event>)
    requires Safe(s) && Conserved(s)
    ensures Safe(Run(v, s, es)) && Conserved(Run(v, s, es))
    decreases |es|
  {
    if es != [] {
      var t := Step(v, s, es[0]);
      assert Safe(t) && Conserved(t) by {
        TickSafe(s);
        TickConserved(s);
        MainSafe(v, s);
        MainConserved(v, s);
      }
      hide Step, Safe, Conserved;
      RunConserves(v, t, es[1..]);
    }
  }

  // ---------------------------------------------------------------------------------------------
  // Releases in closed form
  // ---------------------------------------------------------------------------------------------

  /** Each wrap of the counter contributes one release more than the whole periods it holds: the one at count 0. */
  function ReleaseCount(n: nat, p: nat): int
    requires p > 0
  {
    n / WORD_MODULUS * ((WORD_MODULUS - 1) / p + 1) + n % WORD_MODULUS / p
  }

  lemma ReleaseCountStep(n: nat, p: nat)
    requires p > 0 && n > 0
    ensures ReleaseCount(n, p) == ReleaseCount(n - 1, p) + if n % WORD_MODULUS % p == 0 then 1 else 0
  {
    var q, r := (n - 1) / WORD_MODULUS, (n - 1) % WORD_MODULUS;
    if r + 1 < WORD_MODULUS {
      assert n / WORD_MODULUS == q && n % WORD_MODULUS == r + 1;
      QuotientStep(r, p);
    } else {
      assert n / WORD_MODULUS == q + 1 && n % WORD_MODULUS == 0;
      QuotientUnique(0, p, 0, 0);
      var c := (WORD_MODULUS - 1) / p + 1;
      assert (q + 1) * c == q * c + c;
    }
  }

  lemma {:induction false} ReleasesClosed(n: nat, p: nat)
    requires p > 0
    ensures Releases(n, p) == ReleaseCount(n, p)
  {
    if n == 0 {
      QuotientUnique(0, p, 0, 0);
    } else {
      hide ReleaseCount;
      ReleasesClosed(n - 1, p);
      ReleaseCountStep(n, p);
    }
  }

  /** Below one wrap releases are exactly ticks / period; at the wrap every period has gained one. */
  lemma ReleasesToFirstWrap(n: nat, p: nat)
    requires p > 0 && WORD_MODULUS % p != 0 && n <= WORD_MODULUS
    ensures Releases(n, p) == n / p + if n == WORD_MODULUS then 1 else 0
  {
    ReleasesClosed(n, p);
    QuotientUnique(0, p, 0, 0);
    PredecessorQuotient(WORD_MODULUS, p);
  }

  /** Releases are ticks / period exactly while the excess of the wraps stays below one period. */
  lemma ReleasesExact(n: nat, p: nat)
    requires p > 0 && WORD_MODULUS % p != 0
    ensures Releases(n, p) == n / p <==>
            n / WORD_MODULUS * (p - WORD_MODULUS % p) <= n % WORD_MODULUS % p
  {
    ReleasesClosed(n, p);
    WrapExcess(n, n / WORD_MODULUS, WORD_MODULUS, n % WORD_MODULUS, p);
  }

  /** Conservation in terms of elapsed ticks, with its exact range: it holds for all runs shorter than 2^32 ticks, fails
      for every task at 2^32 ticks, and in general holds as long as the wraps' excess is below one period. */
  lemma ConservationByTicks(s: State, i: nat)
    requires Conserved(s) && i < NUM_TASKS
    ensures s.total / Period(i) == s.completed[i] + s.absorbed[i] + (if Pending(s, i) then 1 else 0) <==>
            s.total / 0x1_0000_0000 * (Period(i) - 0x1_0000_0000 % Period(i)) <= s.total % 0x1_0000_0000 % Period(i)
    ensures s.total < 0x1_0000_0000 ==>
              s.total / Period(i) == s.completed[i] + s.absorbed[i] + if Pending(s, i) then 1 else 0
    ensures s.total == 0x1_0000_0000 ==>
              s.total / Period(i) + 1 == s.completed[i] + s.absorbed[i] + if Pending(s, i) then 1 else 0
  {
    var p := Period(i);
    ReleasesExact(s.total, p);
    assert Releases(s.total, p) == s.completed[i] + s.absorbed[i] + if Pending(s, i) then 1 else 0;
    if s.total <= WORD_MODULUS {
      ReleasesToFirstWrap(s.total, p);
    }
  }
}
