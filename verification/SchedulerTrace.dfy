/** What a run of the scheduler writes: the shape of the message log and its decoding. */
module SchedulerTrace {
  import opened Ctrace
  import opened CtraceTest
  import opened Wrappers
  import opened SchedulerModel
  import opened SchedulerSafety
  import opened SchedulerTiming

  // ---------------------------------------------------------------------------------------------
  // Shape of the log
  // ---------------------------------------------------------------------------------------------

  /** One more than the last task that announced itself in the current sweep; 0 if none did. */
  function LastInSweep(log: seq<Entry>): nat {
    if log == [] then 0
    else match log[|log| - 1]
      case Sweep => 0
      case Own(task, _) => task + 1
  }

  /** Task indices, and with them ownership ids, strictly ascend between two sweep starts. */
  predicate Ascending(log: seq<Entry>) {
    forall k :: 0 < k < |log| && log[k - 1].Own? && log[k].Own? ==> log[k - 1].task < log[k].task
  }

  /** The last task announces itself not before tick 1000, and nothing follows it. */
  predicate StopsLast(log: seq<Entry>) {
    forall k :: 0 <= k < |log| && log[k].Own? && log[k].task == 3 ==> k == |log| - 1 && log[k].tick >= 1000
  }

  /** Main is on its way from the last ownership message to the end of the loop. */
  predicate Stopping(s: State) {
    match s.pc
    case Call(i) => i == 3
    case Body(i, _) => i == 3
    case Clear(i) => i == 3 && !s.enabled
    case Head => !s.enabled
    case Done => !s.enabled
    case _ => false
  }

  predicate Stopped(log: seq<Entry>) { LastInSweep(log) == 4 }

  /** In a sweep, only tasks before the current slot, or the one being served, have announced themselves. */
  predicate Ordered(s: State) {
    && WellFormed(s)
    && Ascending(s.log)
    && (forall k :: 0 <= k < |s.log| && s.log[k].Own? ==> s.log[k].task < NUM_TASKS)
    && (InSweep(s.pc) ==> LastInSweep(s.log) <= s.pc.i + if s.pc.Test? || s.pc.Emit? then 0 else 1)
  }

  predicate Finishing(s: State) {
    && WellFormed(s)
    && StopsLast(s.log)
    && (Stopped(s.log) <==> Stopping(s))
    && (s.pc == Boot || s.enabled || Stopping(s))
    && (s.pc == Done ==> !s.enabled)
    && (Pending(s, 3) ==> s.total >= 1000)
  }

  /** A main step writes to the log only at the head of a sweep and when a task announces itself. */
  lemma MainLog(v: Variant, s: State)
    requires Safe(s)
    ensures var t := MainStep(v, s);
            && t.log == (match s.pc
                         case Head => if s.enabled then s.log + [Sweep] else s.log
                         case Emit(i) => s.log + [Own(i, s.total)]
                         case _ => s.log)
            && t.total == s.total
            && (Pending(t, 3) ==> Pending(s, 3))
  {
    hide Words, Program, TaskId;
  }

  lemma TickFinishing(s: State)
    requires Safe(s) && Conserved(s) && Finishing(s)
    ensures Finishing(TickStep(s))
  {
    var t := TickStep(s);
    assert t.ticks == (s.total + 1) % WORD_MODULUS by { WrapStep(s.total); }
    if s.total + 1 < 1000 {
      assert !Due(s.total + 1, 3);
    }
  }

  lemma MainOrdered(v: Variant, s: State)
    requires Safe(s) && BodyOk(s) && Ordered(s)
    ensures Ordered(MainStep(v, s))
  {
    MainMoves(v, s);
    MainLog(v, s);
    hide MainStep;
  }

  lemma MainFinishing(v: Variant, s: State)
    requires Safe(s) && BodyOk(s) && Ordered(s) && Finishing(s)
    ensures Finishing(MainStep(v, s))
  {
    MainMoves(v, s);
    MainLog(v, s);
    StepBodyOk(v, s, Main);
    BodyKeepsEnabled(v, s);
    hide MainStep, Ascending;
  }

  lemma BodyKeepsEnabled(v: Variant, s: State)
    requires WellFormed(s) && BodyOk(s)
    ensures s.pc.Body? && s.pc.i != 3 ==> MainStep(v, s).enabled == s.enabled
  {
  }

  lemma TickOrdered(s: State)
    requires Ordered(s)
    ensures Ordered(TickStep(s))
  {
  }

  /** Everything established so far, kept together along a run. */
  predicate Sound(s: State) {
    Safe(s) && Conserved(s) && BodyOk(s) && DueBy1000(s) && Ordered(s) && Finishing(s)
  }

  lemma StepSound(v: Variant, s: State, e: Event)
    requires Sound(s)
    ensures Sound(Step(v, s, e))
  {
    StepBodyOk(v, s, e);
    StepDueBy1000(v, s, e);
    if e.Tick? {
      TickSafe(s);
      TickConserved(s);
      TickOrdered(s);
      TickFinishing(s);
    } else {
      MainSafe(v, s);
      MainConserved(v, s);
      MainOrdered(v, s);
      MainFinishing(v, s);
    }
    hide *;
  }

  lemma InitialSound(s: State)
    requires Initial(s)
    ensures Sound(s)
  {
    InitialConserved(s);
  }

  lemma {:induction false} RunSound(v: Variant, s: State, es: seq<Event>)
    requires Sound(s)
    ensures Sound(Run(v, s, es))
    decreases |es|
  {
    if es != [] {
      StepSound(v, s, es[0]);
      hide Step, Sound;
      RunSound(v, Step(v, s, es[0]), es[1..]);
    }
  }

  lemma {:induction false} AscendingApart(log: seq<Entry>, j: nat, k: nat)
    requires Ascending(log) && j < k < |log|
    requires forall i :: j <= i <= k ==> log[i].Own?
    ensures log[j].task < log[k].task
    decreases k
  {
    if j + 1 < k {
      AscendingApart(log, j, k - 1);
    }
  }

  // ---------------------------------------------------------------------------------------------
  // Decoding the words of a run
  // ---------------------------------------------------------------------------------------------

  /** How often the 100 ms task, which runs the trace test, has announced itself. */
  function TestRuns(log: seq<Entry>): nat {
    if log == [] then 0
    else TestRuns(log[..|log| - 1]) + if log[|log| - 1].Own? && log[|log| - 1].task == 2 then 1 else 0
  }

  /** The messages a run should consist of: each announcement, followed for the 100 ms task by the next test phase. */
  function Expected(p: Platform, counter: nat, log: seq<Entry>): seq<Message>
    requires forall k :: 0 <= k < |log| && log[k].Own? ==> log[k].task < NUM_TASKS
  {
    if log == [] then []
    else
      var before := log[..|log| - 1];
      Expected(p, counter, before) +
      match log[|log| - 1]
      case Sweep => []
      case Own(task, _) =>
        [Owner(TaskId(task))] + if task == 2 then TestMessages(p, (counter + TestRuns(before)) % 8) else []
  }

  function PendingWords(todo: seq<Action>): seq<bv32> {
    if todo == [] then []
    else (match todo[0] case Write(w) => [w] case _ => []) + PendingWords(todo[1..])
  }

  /** The words still to be written by the task being served. */
  function Unwritten(s: State): seq<bv32> {
    match s.pc
    case Call(i) => if i < NUM_TASKS then PendingWords(Program(s.platform, i, s.counter)) else []
    case Body(_, todo) => PendingWords(todo)
    case _ => []
  }

  predicate WritesThenCount(todo: seq<Action>) {
    todo == [] || todo == [Count] || (todo[0].Write? && |todo| > 1 && WritesThenCount(todo[1..]))
  }

  /** Only the body of the 100 ms task writes words or moves the test counter, the latter in its last step. */
  predicate BodyWrites(pc: Pc) {
    pc.Body? ==> if pc.i == 2 then WritesThenCount(pc.todo) else pc.todo == [] || pc.todo == [Stop]
  }

  /** The trace test has been announced but has not advanced its counter yet. */
  predicate TestOpen(pc: Pc) {
    pc == Call(2) || (pc.Body? && pc.i == 2 && pc.todo != [])
  }

  /** The test counter is the initial one advanced once per finished run of the 100 ms task. */
  predicate Counted(s: State, counter: nat) {
    && counter < WORD_MODULUS
    && BodyWrites(s.pc)
    && (TestOpen(s.pc) ==> TestRuns(s.log) > 0)
    && s.counter == CounterAfter(counter, TestRuns(s.log) - if TestOpen(s.pc) then 1 else 0)
  }

  /** The words written, with those the running task has still to write, encode the expected messages. */
  predicate Faithful(s: State, p: Platform, counter: nat) {
    && Ordered(s)
    && s.platform == p
    && Encode(Expected(p, counter, s.log)) == s.words + Unwritten(s)
  }

  lemma {:induction false} WriteAllPending(ws: seq<bv32>)
    ensures WritesThenCount(WriteAll(ws) + [Count])
    ensures PendingWords(WriteAll(ws) + [Count]) == ws
  {
    var todo := WriteAll(ws) + [Count];
    if ws == [] {
      assert todo == [Count];
      assert todo[1..] == [];
    } else {
      var rest := WriteAll(ws[1..]) + [Count];
      WriteAllPending(ws[1..]);
      assert todo[0] == Write(ws[0]) && todo[1..] == rest && |todo| > 1;
      assert PendingWords(todo) == [ws[0]] + PendingWords(rest);
    }
  }

  lemma ProgramWrites(p: Platform, task: nat, counter: nat)
    requires task < NUM_TASKS
    ensures BodyWrites(Body(task, Program(p, task, counter)))
    ensures task == 2 ==> Program(p, task, counter) != []
    ensures PendingWords(Program(p, task, counter)) == if task == 2 then Encode(TestMessages(p, counter % 8)) else []
  {
    var ws := Encode(TestMessages(p, counter % 8));
    hide Encode, TestMessages;
    WriteAllPending(ws);
  }

  lemma LogGrows(log: seq<Entry>, e: Entry)
    ensures TestRuns(log + [e]) == TestRuns(log) + if e.Own? && e.task == 2 then 1 else 0
  {
    assert (log + [e])[..|log|] == log;
  }

  lemma MainCounted(v: Variant, s: State, counter: nat)
    requires Safe(s) && BodyOk(s) && Counted(s, counter)
    ensures Counted(MainStep(v, s), counter)
  {
    var t := MainStep(v, s);
    MainMoves(v, s);
    MainLog(v, s);
    MainCounter(v, s);
    hide MainStep, Safe, BodyOk, CounterAfter, TestRuns;
    if s.pc.Head? {
      LogGrows(s.log, Sweep);
    } else if s.pc.Emit? {
      LogGrows(s.log, Own(s.pc.i, s.total));
    } else if s.pc.Body? && s.pc.todo == [Count] {
      CounterMoves(counter, TestRuns(s.log));
    }
  }

  lemma CounterMoves(counter: nat, n: nat)
    requires counter < WORD_MODULUS
    ensures n > 0 ==> CounterAfter(counter, n) == NextCounter(CounterAfter(counter, n - 1))
  {
  }

  lemma CallCounter(v: Variant, s: State)
    requires Safe(s) && s.pc.Call?
    ensures var t := MainStep(v, s);
            && BodyWrites(t.pc) && t.counter == s.counter
            && (s.pc.i == 2 ==> TestOpen(t.pc))
  {
    hide Words, Program, TaskId, NextCounter;
    assert Serving(s, s.pc.i);
    ProgramWrites(s.platform, s.pc.i, s.counter);
  }

  lemma BodyCounter(v: Variant, s: State)
    requires WellFormed(s) && BodyWrites(s.pc) && s.pc.Body?
    ensures var t := MainStep(v, s);
            && BodyWrites(t.pc)
            && t.counter == if s.pc == Body(2, [Count]) then NextCounter(s.counter) else s.counter
  {
    hide NextCounter;
  }

  /** The test counter moves only in the last step of the 100 ms task. */
  lemma MainCounter(v: Variant, s: State)
    requires Safe(s) && BodyWrites(s.pc)
    ensures var t := MainStep(v, s);
            && BodyWrites(t.pc)
            && (s.pc == Call(2) ==> TestOpen(t.pc))
            && t.counter == if s.pc == Body(2, [Count]) then NextCounter(s.counter) else s.counter
  {
    hide Words, Program, TaskId, NextCounter;
    if s.pc.Call? {
      CallCounter(v, s);
    } else if s.pc.Body? {
      BodyCounter(v, s);
    }
  }

  lemma ExpectedGrows(p: Platform, counter: nat, log: seq<Entry>, e: Entry)
    requires forall k :: 0 <= k < |log| && log[k].Own? ==> log[k].task < NUM_TASKS
    requires e.Own? ==> e.task < NUM_TASKS
    ensures forall k :: 0 <= k < |log + [e]| && (log + [e])[k].Own? ==> (log + [e])[k].task < NUM_TASKS
    ensures Expected(p, counter, log + [e]) == Expected(p, counter, log) +
            match e
            case Sweep => []
            case Own(task, _) =>
              [Owner(TaskId(task))] + if task == 2 then TestMessages(p, (counter + TestRuns(log)) % 8) else []
  {
    hide TestMessages, TaskId;
    assert (log + [e])[..|log|] == log;
  }

  lemma EncodeRun(before: seq<Message>, owner: Message, test: seq<Message>)
    ensures Encode(before + ([owner] + test)) == Encode(before) + Words(owner) + Encode(test)
  {
    hide Words;
    EncodeAppend(before, [owner] + test);
    assert ([owner] + test)[1..] == test;
    assert Encode([owner] + test) == Words(owner) + Encode(test);
    assert Encode(before) + (Words(owner) + Encode(test)) == Encode(before) + Words(owner) + Encode(test);
  }

  /** Announcing a task adds its ownership message and, for the trace test, commits main to the next phase. */
  lemma EmitFaithful(s: State, p: Platform, counter: nat)
    requires Safe(s) && Ordered(s) && Counted(s, counter) && Faithful(s, p, counter) && s.pc.Emit?
    ensures var log := s.log + [Own(s.pc.i, s.total)];
            && (forall k :: 0 <= k < |log| && log[k].Own? ==> log[k].task < NUM_TASKS)
            && Encode(Expected(p, counter, log)) ==
               s.words + Words(Owner(TaskId(s.pc.i))) + PendingWords(Program(p, s.pc.i, s.counter))
  {
    hide Words, TaskId, TestMessages, Program, Encode, Expected, PendingWords, TestRuns;
    var i := s.pc.i;
    var owner := Owner(TaskId(i));
    var test := if i == 2 then TestMessages(p, (counter + TestRuns(s.log)) % 8) else [];
    var before := Expected(p, counter, s.log);
    ExpectedGrows(p, counter, s.log, Own(i, s.total));
    ProgramWrites(p, i, s.counter);
    PhasesRotate(counter, TestRuns(s.log));
    EncodeRun(before, owner, test);
    EncodeNothing();
    assert Encode(before) == s.words + [] == s.words;
  }

  lemma EncodeNothing()
    ensures Encode([]) == []
  {
  }

  lemma MainFaithful(v: Variant, s: State, p: Platform, counter: nat)
    requires Safe(s) && BodyOk(s) && Ordered(s) && Counted(s, counter) && Faithful(s, p, counter)
    ensures Faithful(MainStep(v, s), p, counter)
  {
    var t := MainStep(v, s);
    MainOrdered(v, s);
    MainLog(v, s);
    MainWords(v, s);
    hide MainStep, Words, Program, TaskId, TestMessages, Encode, Expected, BodyOk;
    if s.pc.Emit? {
      EmitFaithful(s, p, counter);
    } else if s.pc.Head? && s.enabled {
      ExpectedGrows(p, counter, s.log, Sweep);
      assert Expected(p, counter, s.log) + [] == Expected(p, counter, s.log);
    }
  }

  /** Words leave the running body one by one; announcing a task writes one word and fixes those of its body. */
  lemma MainWords(v: Variant, s: State)
    requires Safe(s) && BodyWrites(s.pc)
    ensures var t := MainStep(v, s);
            && t.platform == s.platform
            && if s.pc.Emit? then
                 && t.words == s.words + Words(Owner(TaskId(s.pc.i)))
                 && Unwritten(t) == PendingWords(Program(s.platform, s.pc.i, s.counter))
               else t.words + Unwritten(t) == s.words + Unwritten(s)
  {
    hide Words, Program, TaskId;
  }

  lemma StepFaithful(v: Variant, s: State, e: Event, p: Platform, counter: nat)
    requires Sound(s) && Counted(s, counter) && Faithful(s, p, counter)
    ensures Counted(Step(v, s, e), counter) && Faithful(Step(v, s, e), p, counter)
  {
    hide Encode, Expected, TestMessages, Program, TestRuns, CounterAfter, PendingWords;
    if e.Main? {
      MainCounted(v, s, counter);
      MainFaithful(v, s, p, counter);
    }
  }

  lemma {:induction false} RunFaithful(v: Variant, s: State, es: seq<Event>, p: Platform, counter: nat)
    requires Sound(s) && Counted(s, counter) && Faithful(s, p, counter)
    ensures Sound(Run(v, s, es)) && Counted(Run(v, s, es), counter) && Faithful(Run(v, s, es), p, counter)
    decreases |es|
  {
    if es != [] {
      StepSound(v, s, es[0]);
      StepFaithful(v, s, es[0], p, counter);
      hide Step, Sound, Counted, Faithful;
      RunFaithful(v, Step(v, s, es[0]), es[1..], p, counter);
    }
  }

  /** Trace of a whole run: under every interleaving, and for any initial test counter, the words written, completed by
      those the running task still has to write, decode to exactly the announcements interleaved with the test phases,
      which rotate in order. Between tasks nothing is left to complete. */
  lemma RunTrace(v: Variant, s: State, es: seq<Event>)
    requires Initial(s)
    ensures Sound(Run(v, s, es))
    ensures var t := Run(v, s, es);
            && Decode(t.words + Unwritten(t)) == Some(Expected(s.platform, s.counter, t.log))
            && (Unwritten(t) == [] ==> Decode(t.words) == Some(Expected(s.platform, s.counter, t.log)))
            && (!t.pc.Call? && !t.pc.Body? ==> Unwritten(t) == [])
  {
    InitialFaithful(s);
    RunFaithful(v, s, es, s.platform, s.counter);
    var t := Run(v, s, es);
    hide Run, Decode, Encode, Expected, Initial, Counted, PendingWords, Program, Words;
    DecodeEncode(Expected(s.platform, s.counter, t.log));
    assert t.words + [] == t.words;
  }

  lemma InitialFaithful(s: State)
    requires Initial(s)
    ensures Sound(s) && Counted(s, s.counter) && Faithful(s, s.platform, s.counter)
  {
    InitialSound(s);
    EncodeNothing();
  }

  // ---------------------------------------------------------------------------------------------
  // The decoded messages
  // ---------------------------------------------------------------------------------------------

  predicate TasksOnly(log: seq<Entry>) {
    forall k :: 0 <= k < |log| && log[k].Own? ==> log[k].task < NUM_TASKS
  }

  /** Where in the decoded list the message of log entry k stands. */
  function Place(p: Platform, counter: nat, log: seq<Entry>, k: nat): nat
    requires TasksOnly(log) && k <= |log|
  {
    |Expected(p, counter, log[..k])|
  }

  /** The word each announcement writes, in hexadecimal. */
  lemma AnnouncedWord(v: Variant, s: State)
    requires Safe(s) && s.pc.Emit?
    ensures s.pc.i < 4
    ensures MainStep(v, s).words == s.words + [[0x8000_0103, 0x8000_0203, 0x8000_0303, 0x8000_0403][s.pc.i]]
  {
    hide MainStep, Words, TaskId, Program;
    MainWords(v, s);
    IdWords(s.pc.i);
  }

  lemma IdWords(i: nat)
    requires i < 4
    ensures Words(Owner(TaskId(i))) == [[0x8000_0103, 0x8000_0203, 0x8000_0303, 0x8000_0403][i]]
  {
    LayoutPlain(0, TaskId(i));
    hide Words;
  }

  /** The ids of the task table count from one. */
  lemma TaskNumbers(i: nat)
    requires i < NUM_TASKS
    ensures TaskId(i) as nat == i + 1
    ensures TaskId(i) == 3 <==> i == 2
    ensures TaskId(i) == 4 <==> i == 3
  {
  }

  lemma TestsAnnounceNobody(p: Platform, k: nat)
    requires k < 8
    ensures forall m :: m in TestMessages(p, k) ==> !m.Owner?
  {
  }

  /** Every announcement stands in the list as the owner message of the task's number, the next test phase right behind
      it for number 3 and nothing for the others. The phase is counted by the owner messages of number 3 so far. */
  predicate ToldAt(p: Platform, counter: nat, log: seq<Entry>, ms: seq<Message>, k: nat)
    requires TasksOnly(log) && k < |log|
  {
    var q, r := Place(p, counter, log, k), Place(p, counter, log, k + 1);
    match log[k]
    case Sweep => r == q
    case Own(i, _) =>
      && q < r <= |ms|
      && ms[q].Owner? && ms[q].id as nat == i + 1
      && ms[q + 1..r]
         == if i == 2 then TestMessages(p, (counter + multiset(ms[..q])[Owner(3)]) % 8) else []
  }

  /** The list consists of the announcements of the log and their tests, in order. */
  predicate Told(p: Platform, counter: nat, log: seq<Entry>, ms: seq<Message>) {
    && TasksOnly(log)
    && Place(p, counter, log, 0) == 0 && Place(p, counter, log, |log|) == |ms|
    && forall k :: 0 <= k < |log| ==> ToldAt(p, counter, log, ms, k)
  }

  /** What one log entry adds to the messages. */
  function Added(p: Platform, counter: nat, log: seq<Entry>, e: Entry): seq<Message>
    requires e.Own? ==> e.task < NUM_TASKS
  {
    match e
    case Sweep => []
    case Own(task, _) =>
      [Owner(TaskId(task))] + if task == 2 then TestMessages(p, (counter + TestRuns(log)) % 8) else []
  }

  lemma ExpectedStep(p: Platform, counter: nat, log: seq<Entry>, k: nat)
    requires TasksOnly(log) && k < |log|
    ensures Expected(p, counter, log[..k + 1]) == Expected(p, counter, log[..k]) + Added(p, counter, log[..k], log[k])
  {
    hide TestMessages, TaskId;
    assert log[..k + 1] == log[..k] + [log[k]];
    ExpectedGrows(p, counter, log[..k], log[k]);
  }

  lemma {:induction false} ExpectedPrefix(p: Platform, counter: nat, log: seq<Entry>, k: nat)
    requires TasksOnly(log) && k <= |log|
    ensures Place(p, counter, log, k) <= |Expected(p, counter, log)|
    ensures Expected(p, counter, log)[..Place(p, counter, log, k)] == Expected(p, counter, log[..k])
    decreases |log| - k
  {
    hide Expected, Added;
    if k == |log| {
      assert log[..k] == log;
    } else {
      ExpectedStep(p, counter, log, k);
      ExpectedPrefix(p, counter, log, k + 1);
    }
  }

  lemma AddedOwners(p: Platform, counter: nat, log: seq<Entry>, e: Entry)
    requires e.Own? ==> e.task < NUM_TASKS
    ensures multiset(Added(p, counter, log, e))[Owner(3)] == if e.Own? && e.task == 2 then 1 else 0
  {
    if e.Own? {
      var tests := if e.task == 2 then TestMessages(p, (counter + TestRuns(log)) % 8) else [];
      TaskNumbers(e.task);
      TestsAnnounceNobody(p, (counter + TestRuns(log)) % 8);
      hide TestMessages, TaskId;
      assert Owner(3) !in tests;
      assert multiset(tests)[Owner(3)] == 0;
    }
  }

  /** Owner messages of number 3 count the runs of the trace test. */
  lemma {:induction false} OwnersCount(p: Platform, counter: nat, log: seq<Entry>)
    requires TasksOnly(log)
    ensures multiset(Expected(p, counter, log))[Owner(3)] == TestRuns(log)
  {
    hide Expected, Added;
    if log == [] {
      ExpectedNothing(p, counter);
    } else {
      var k := |log| - 1;
      OwnersCount(p, counter, log[..k]);
      ExpectedStep(p, counter, log, k);
      AddedOwners(p, counter, log[..k], log[k]);
      assert log[..k + 1] == log;
    }
  }

  lemma ExpectedNothing(p: Platform, counter: nat)
    ensures Expected(p, counter, []) == []
  {
  }

  lemma ExpectedTold(p: Platform, counter: nat, log: seq<Entry>)
    requires TasksOnly(log)
    ensures Told(p, counter, log, Expected(p, counter, log))
  {
    hide Expected, TestMessages, TaskId;
    var ms := Expected(p, counter, log);
    ExpectedNothing(p, counter);
    assert log[..0] == [] && log[..|log|] == log;
    forall k | 0 <= k < |log|
      ensures ToldAt(p, counter, log, ms, k)
    {
      EntryTold(p, counter, log, k);
    }
  }

  lemma SliceBetween<T>(ms: seq<T>, q: nat, r: nat, added: seq<T>)
    requires q <= |ms| && r <= |ms| && added != [] && ms[..r] == ms[..q] + added
    ensures q < r == q + |added| && ms[q] == added[0] && ms[q + 1..r] == added[1..]
  {
    assert |ms[..r]| == r && |ms[..q]| == q;
    assert ms[..r][q] == ms[q] && ms[..r][q + 1..] == ms[q + 1..r];
  }

  lemma EntryTold(p: Platform, counter: nat, log: seq<Entry>, k: nat)
    requires TasksOnly(log) && k < |log|
    ensures ToldAt(p, counter, log, Expected(p, counter, log), k)
  {
    hide Expected, TestMessages, TaskId, TestRuns, Place, Added;
    var ms := Expected(p, counter, log);
    var q, r := Place(p, counter, log, k), Place(p, counter, log, k + 1);
    var runs := TestRuns(log[..k]);
    PlaceStep(p, counter, log, k);
    AddedParts(p, counter, log[..k], log[k]);
    assert multiset(ms[..q])[Owner(3)] == runs;
    if log[k].Own? {
      var i := log[k].task;
      TaskNumbers(i);
      var tests := if i == 2 then TestMessages(p, (counter + runs) % 8) else [];
      assert ms[q + 1..r] == tests;
    }
  }

  /** Between its place and the next one stands what a log entry adds. */
  lemma PlaceStep(p: Platform, counter: nat, log: seq<Entry>, k: nat)
    requires TasksOnly(log) && k < |log|
    ensures var ms, q, r := Expected(p, counter, log), Place(p, counter, log, k), Place(p, counter, log, k + 1);
            var added := Added(p, counter, log[..k], log[k]);
            && q <= r <= |ms| && (added == [] ==> q == r)
            && (added != [] ==> q < r && ms[q] == added[0] && ms[q + 1..r] == added[1..])
            && multiset(ms[..q])[Owner(3)] == TestRuns(log[..k])
  {
    hide Expected, Added, TestRuns;
    var ms, added := Expected(p, counter, log), Added(p, counter, log[..k], log[k]);
    ExpectedPrefix(p, counter, log, k);
    ExpectedPrefix(p, counter, log, k + 1);
    ExpectedStep(p, counter, log, k);
    OwnersCount(p, counter, log[..k]);
    if added != [] {
      SliceBetween(ms, Place(p, counter, log, k), Place(p, counter, log, k + 1), added);
    }
  }

  lemma AddedParts(p: Platform, counter: nat, log: seq<Entry>, e: Entry)
    requires e.Own? ==> e.task < NUM_TASKS
    ensures var added := Added(p, counter, log, e);
            if e.Sweep? then added == []
            else
              && added != [] && added[0] == Owner(TaskId(e.task))
              && added[1..] == if e.task == 2 then TestMessages(p, (counter + TestRuns(log)) % 8) else []
  {
    hide TestMessages, TaskId, TestRuns;
  }

  lemma AddedFour(p: Platform, counter: nat, log: seq<Entry>, e: Entry)
    requires e.Own? ==> e.task < NUM_TASKS
    ensures e.Own? && e.task == 3 ==> Added(p, counter, log, e) == [Owner(4)]
    ensures !(e.Own? && e.task == 3) ==> Owner(4) !in Added(p, counter, log, e)
  {
    if e.Own? {
      TaskNumbers(e.task);
      TestsAnnounceNobody(p, (counter + TestRuns(log)) % 8);
      hide TestMessages, TaskId;
    }
  }

  /** Without an announcement of the last task there is no owner message of number 4. */
  lemma {:induction false} NoFour(p: Platform, counter: nat, log: seq<Entry>)
    requires TasksOnly(log) && forall k :: 0 <= k < |log| && log[k].Own? ==> log[k].task != 3
    ensures Owner(4) !in Expected(p, counter, log)
  {
    hide Expected, Added;
    if log == [] {
      ExpectedNothing(p, counter);
    } else {
      var k := |log| - 1;
      NoFour(p, counter, log[..k]);
      ExpectedStep(p, counter, log, k);
      AddedFour(p, counter, log[..k], log[k]);
      assert log[..k + 1] == log;
    }
  }

  /** An owner message of number 4 is the last message; it is there if the last entry announces the last task. */
  lemma FourIsLast(p: Platform, counter: nat, log: seq<Entry>)
    requires TasksOnly(log) && StopsLast(log)
    ensures var ms, n := Expected(p, counter, log), |log|;
            && FourEnds(log, ms)
            && (n > 0 && log[n - 1].Own? && log[n - 1].task == 3 ==> ms != [] && ms[|ms| - 1] == Owner(4))
  {
    hide Expected, Added;
    var n := |log|;
    if n > 0 && log[n - 1].Own? && log[n - 1].task == 3 {
      NoFour(p, counter, log[..n - 1]);
      ExpectedStep(p, counter, log, n - 1);
      AddedFour(p, counter, log[..n - 1], log[n - 1]);
      assert log[..n] == log;
      assert Expected(p, counter, log) == Expected(p, counter, log[..n - 1]) + [Owner(4)];
    } else {
      NoFour(p, counter, log);
    }
  }

  /** No sweep starts from entry j to entry k. */
  predicate OneSweep(log: seq<Entry>, j: nat, k: nat) {
    j < k < |log| && forall i :: j <= i <= k ==> log[i].Own?
  }

  predicate IdsInOrder(p: Platform, counter: nat, log: seq<Entry>, ms: seq<Message>, j: nat, k: nat)
    requires TasksOnly(log) && j < k < |log|
  {
    var a, b := Place(p, counter, log, j), Place(p, counter, log, k);
    a < |ms| && b < |ms| && ms[a].Owner? && ms[b].Owner? && ms[a].id as nat < ms[b].id as nat
  }

  /** Owner ids strictly ascend between two sweep starts. */
  predicate IdsAscending(p: Platform, counter: nat, log: seq<Entry>, ms: seq<Message>)
    requires TasksOnly(log)
  {
    forall j, k :: 0 <= j < k < |log| && OneSweep(log, j, k) ==> IdsInOrder(p, counter, log, ms, j, k)
  }

  /** Owner 4 comes at most once, as the last message, and not before tick 1000. */
  predicate FourEnds(log: seq<Entry>, ms: seq<Message>) {
    forall q :: 0 <= q < |ms| && ms[q] == Owner(4) ==>
      q == |ms| - 1 && log != [] && log[|log| - 1].Own? && log[|log| - 1].tick >= 1000
  }

  /** Ids ascend where the log has no sweep start in between. */
  lemma IdsAscend(p: Platform, counter: nat, log: seq<Entry>, ms: seq<Message>, j: nat, k: nat)
    requires Told(p, counter, log, ms) && Ascending(log) && j < k < |log| && OneSweep(log, j, k)
    ensures IdsInOrder(p, counter, log, ms, j, k)
  {
    hide Place;
    AscendingApart(log, j, k);
    assert ToldAt(p, counter, log, ms, j) && ToldAt(p, counter, log, ms, k);
  }

  lemma ShapeOf(p: Platform, counter: nat, log: seq<Entry>)
    requires TasksOnly(log) && Ascending(log) && StopsLast(log)
    ensures var ms := Expected(p, counter, log);
            Told(p, counter, log, ms) && IdsAscending(p, counter, log, ms) && FourEnds(log, ms)
  {
    hide Expected, Place, Told, StopsLast, OneSweep, IdsInOrder, FourEnds;
    var ms := Expected(p, counter, log);
    ExpectedTold(p, counter, log);
    FourIsLast(p, counter, log);
    forall j, k | 0 <= j < k < |log| && OneSweep(log, j, k)
      ensures IdsInOrder(p, counter, log, ms, j, k)
    {
      IdsAscend(p, counter, log, ms, j, k);
    }
  }

  lemma SoundLog(s: State)
    requires WellFormed(s) && Sound(s)
    ensures TasksOnly(s.log) && Ascending(s.log) && StopsLast(s.log)
    ensures s.pc == Done ==> s.log != [] && s.log[|s.log| - 1].Own? && s.log[|s.log| - 1].task == 3
  {
  }

  /** Shape of every run, on the messages its words decode to: they are the announcements and tests of the log, in
      order; owner ids strictly ascend between two sweep starts; owner 4 comes at most once, not before tick 1000, as
      the last message; and scheduler_run has returned only after it did. */
  lemma RunShape(v: Variant, s: State, es: seq<Event>)
    requires Initial(s)
    ensures var t := Run(v, s, es);
            && Decode(t.words + Unwritten(t)).Some?
            && TasksOnly(t.log)
            && var ms := Decode(t.words + Unwritten(t)).value;
               && Told(s.platform, s.counter, t.log, ms)
               && IdsAscending(s.platform, s.counter, t.log, ms)
               && FourEnds(t.log, ms)
               && (t.pc == Done ==> ms != [] && ms[|ms| - 1] == Owner(4))
  {
    hide Run, Decode, Expected, Unwritten, Told, IdsAscending, FourEnds, Sound, Ascending, StopsLast;
    var t := Run(v, s, es);
    RunTrace(v, s, es);
    SoundLog(t);
    ShapeOf(s.platform, s.counter, t.log);
    FourIsLast(s.platform, s.counter, t.log);
  }

  /** The words of a finished scheduler. */
  predicate Complete(p: Platform, counter: nat, log: seq<Entry>, words: seq<bv32>) {
    && Decode(words).Some?
    && TasksOnly(log)
    && var ms := Decode(words).value;
       && Told(p, counter, log, ms)
       && IdsAscending(p, counter, log, ms)
       && FourEnds(log, ms)
       && ms != [] && ms[|ms| - 1] == Owner(4)
  }

  lemma RunComplete(v: Variant, s: State, es: seq<Event>)
    requires Initial(s) && Run(v, s, es).pc == Done
    ensures var t := Run(v, s, es);
            Sound(t) && Complete(s.platform, s.counter, t.log, t.words)
  {
    hide Run, Decode, Expected, Sound, Told, IdsAscending, FourEnds;
    RunTrace(v, s, es);
    RunShape(v, s, es);
    var t := Run(v, s, es);
    assert t.words + [] == t.words;
  }
}
