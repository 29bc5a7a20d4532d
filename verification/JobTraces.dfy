/** Which steps a job runs, in which order, and how often: reboots change none of it. */
module JobTraces {
  import opened Options
  import opened Sequences
  import opened JobPrograms
  import opened JobSpec
  import opened JobEngine
  import opened JobTrees
  import opened JobRuns

  /** The job is over: its error handler or a final exit has been reached. */
  predicate StopsJob(g: Signal) {
    g.JobExc? || g.Leave?
  }

  /** The reference: the steps run when the process is never lost. */
  function FreeTrace(m: Machine, steps: seq<StepTuple>): seq<StepFn>
    decreases Size(steps)
  {
    if steps == [] then []
    else
      StepShrinks(steps);
      [steps[0].fn]
      + if StopsJob(StepOutcome(m, steps[0].fn)) then [] else FreeTrace(m, StepsAfter(steps))
  }

  lemma {:induction false} LoopTrace(m: Machine, s: Job)
    requires QuietSteps(s.steps)
    ensures var (t, g) := RunLoop(m, s);
            && t.ran + (if StopsJob(g) then [] else FreeTrace(m, t.steps)) == s.ran + FreeTrace(m, s.steps)
            && !g.TestExc? && !g.OtherExc?
            && (g.Normal? ==> t.steps == [])
            && (!g.Normal? ==> Size(t.steps) < Size(s.steps))
    decreases Size(s.steps)
  {
    if s.steps != [] {
      StepTaken(m, s);
      var (s1, g) := RunStep(m, s);
      FreeTraceStep(m, s, s1, g);
      if g.Normal? {
        LoopTrace(m, s1);
      }
    }
  }

  lemma {:induction false} FreeTraceStep(m: Machine, s: Job, s1: Job, g: Signal)
    requires s.steps != [] && s1.steps == StepsAfter(s.steps)
    requires g == StepOutcome(m, s.steps[0].fn) && s1.ran == s.ran + [s.steps[0].fn]
    ensures s1.ran + (if StopsJob(g) then [] else FreeTrace(m, s1.steps)) == s.ran + FreeTrace(m, s.steps)
    ensures !g.TestExc? && !g.OtherExc?
  {
    Assoc(s.ran, [s.steps[0].fn], if StopsJob(g) then [] else FreeTrace(m, s1.steps));
  }

  /** Losing the process at any steps, any number of times, leaves the sequence
      of steps run as it would have been without: the steps run so far followed
      by those the reference runs from the saved list. */
  lemma {:induction false} RestartsKeepTrace(m: Machine, s: Job, restarts: nat)
    requires QuietSteps(s.steps)
    ensures var (t, v) := RunJob(m, s, restarts);
            t.ran + (if v.Paused? then FreeTrace(m, t.steps) else []) == s.ran + FreeTrace(m, s.steps)
    decreases restarts
  {
    LoopTrace(m, s);
    var (s1, g) := RunLoop(m, s);
    if Restartable(g) && restarts > 0 {
      RestartsKeepTrace(m, Resume(s1), restarts - 1);
    }
  }

  /** Every restart consumes a step, so a job with at most that many steps left ends. */
  lemma {:induction false} EnoughRestarts(m: Machine, s: Job, restarts: nat)
    requires QuietSteps(s.steps)
    requires restarts >= Size(s.steps)
    ensures !RunJob(m, s, restarts).1.Paused?
    decreases restarts
  {
    LoopTrace(m, s);
    var (s1, g) := RunLoop(m, s);
    if Restartable(g) {
      EnoughRestarts(m, Resume(s1), restarts - 1);
    }
  }

  // ------------------------------------------------- each queued step at most once

  function Fns(steps: seq<StepTuple>): seq<StepFn> {
    seq(|steps|, i requires 0 <= i < |steps| => steps[i].fn)
  }

  /** Every step ever queued has been run or is still in the list, not both. */
  ghost predicate Accounted(s: Job) {
    multiset(s.issued) == multiset(s.ran) + multiset(Fns(s.steps))
  }

  lemma InsertFns(steps: seq<StepTuple>, i: nat, t: StepTuple)
    ensures multiset(Fns(Insert(steps, i, t))) == multiset(Fns(steps)) + multiset{t.fn}
  {
    var k := if i <= |steps| then i else |steps|;
    var f := Fns(steps);
    assert Fns(Insert(steps, i, t)) == f[..k] + [t.fn] + f[k..];
    assert f == f[..k] + f[k..];
  }

  lemma ApplyAccounted(s: Job, how: Queueing, fn: StepFn)
    requires Accounted(s)
    ensures Accounted(Apply(s, how, fn))
  {
    var t := CreateStepTuple(s, fn);
    match how
    case Append => InsertFns(s.steps, |s.steps|, t); assert Insert(s.steps, |s.steps|, t) == s.steps + [t];
    case Next => InsertFns(s.steps, s.index, t);
    case Prepend => InsertFns(s.steps, 0, t); assert Insert(s.steps, 0, t) == [t] + s.steps;
  }

  lemma {:induction false} ApplyAllAccounted(s: Job, calls: seq<Call>)
    requires Accounted(s)
    ensures Accounted(ApplyAll(s, calls))
    decreases |calls|
  {
    if calls != [] {
      ApplyAccounted(s, calls[0].how, calls[0].fn);
      ApplyAllAccounted(Apply(s, calls[0].how, calls[0].fn), calls[1..]);
    }
  }

  lemma PopAccounted(s: Job)
    requires Accounted(s) && s.steps != []
    ensures Accounted(PopStep(s))
  {
    assert Fns(s.steps) == [s.steps[0].fn] + Fns(s.steps[1..]);
  }

  lemma BodyAccounted(b: Body, s: Job)
    requires Accounted(s)
    ensures Accounted(RunBody(b, s).0)
  {
    BodyEffect(b, s);
    ApplyAllAccounted(s, Calls(b));
  }

  lemma InitAccounted(s: Job, code: Code)
    requires Accounted(s)
    ensures Accounted(AddStepInit(s, code))
  {
    if NestedInit(code.body).Some? {
      var t := s.(ancestry := s.ancestry + [code]);
      ApplyAccounted(t, Prepend, User(NestedInit(code.body).value));
    }
  }

  lemma UserStepAccounted(s: Job, code: Code)
    requires Accounted(s)
    ensures Accounted(RunUserStep(s, code).0)
  {
    var s1 := RunBody(code.body, s).0;
    BodyAccounted(code.body, s);
    InitAccounted(s1, code);
  }

  lemma {:induction false} FramesAccounted(ancestors: seq<Code>, s: Job)
    requires Accounted(s)
    ensures Accounted(RunFrames(ancestors, s).0)
    decreases |ancestors|
  {
    if ancestors != [] {
      BodyAccounted(ancestors[0].body, s);
      FramesAccounted(ancestors[1..], RunBody(ancestors[0].body, s).0);
    }
  }

  /** Whatever its ancestors do, a step loses and doubles nothing. */
  lemma StepAccounted(m: Machine, s: Job)
    requires Accounted(s) && s.steps != []
    ensures Accounted(RunStep(m, s).0)
  {
    PopAccounted(s);
    FramesAccounted(s.steps[0].ancestry, PopStep(s));
    assert Accounted(Framed(s));
    if s.steps[0].fn.User? {
      UserStepAccounted(Framed(s), s.steps[0].fn.code);
    }
  }

  lemma {:induction false} LoopAccounted(m: Machine, s: Job)
    requires QuietSteps(s.steps)
    requires Accounted(s)
    ensures Accounted(RunLoop(m, s).0)
    decreases Size(s.steps)
  {
    if s.steps != [] {
      StepTaken(m, s);
      StepAccounted(m, s);
      if RunStep(m, s).1.Normal? {
        LoopAccounted(m, RunStep(m, s).0);
      }
    }
  }

  lemma {:induction false} JobAccounted(m: Machine, s: Job, restarts: nat)
    requires QuietSteps(s.steps)
    requires Accounted(s)
    ensures Accounted(RunJob(m, s, restarts).0)
    decreases restarts
  {
    LoopAccounted(m, s);
    var (s1, g) := RunLoop(m, s);
    if Restartable(g) && restarts > 0 {
      JobAccounted(m, Resume(s1), restarts - 1);
    }
  }

  /** From the first start on, across reboots and crashes, no queued step is run
      twice and none is dropped: run steps and waiting steps are together
      exactly the queued ones. */
  lemma EachStepAtMostOnce(m: Machine, stepInit: Option<Code>, restarts: nat)
    requires QuietStart(stepInit)
    ensures Accounted(RunJob(m, StartJob(stepInit), restarts).0)
  {
    var s := Record(Job([], 0, None, [], 0, [], [], []), Start, WholeJob);
    assert Accounted(s);
    match stepInit
    case None =>
    case Some(code) => ApplyAccounted(s, Next, User(code));
    JobAccounted(m, StartJob(stepInit), restarts);
  }

  // ------------------------------------------------------- preorder of the tree

  /** The steps of the tree under `c`, each before the steps it queues. */
  function Preorder(c: Code): seq<StepFn>
    decreases c
  {
    [User(c)]
    + (if Outcome(c.body).Normal? && c.body.ending.Return? && c.body.ending.init.Some?
       then Preorder(c.body.ending.init.value) else [])
    + ActsPreorder(c.body.acts)
  }

  function ActsPreorder(acts: seq<Act>): seq<StepFn>
    decreases acts
  {
    if acts == [] then []
    else ActPreorder(acts[0]) + if ActOutcome(acts[0]).Normal? then ActsPreorder(acts[1..]) else []
  }

  function ActPreorder(a: Act): seq<StepFn>
    decreases a
  {
    match a
    case Queue(_, code) => Preorder(code)
    case RunTest(_, _) => []
    case RunGroup(_, body) => ActsPreorder(body.acts)
    case Guarded(body) => ActsPreorder(body.acts)
  }

  /** Only next_step is used below `c`, and no step of its tree stops the job. */
  predicate NextOnly(c: Code)
    decreases c
  {
    && !StopsJob(StepSignal(Outcome(c.body)))
    && !c.body.ending.Boot?
    && ActsNextOnly(c.body.acts)
    && (c.body.ending.Return? && c.body.ending.init.Some? ==> NextOnly(c.body.ending.init.value))
  }

  predicate ActsNextOnly(acts: seq<Act>)
    decreases acts
  {
    acts == [] || (ActNextOnly(acts[0]) && ActsNextOnly(acts[1..]))
  }

  predicate ActNextOnly(a: Act)
    decreases a
  {
    match a
    case Queue(how, code) => how.Next? && NextOnly(code)
    case RunTest(_, _) => true
    case RunGroup(_, body) => !body.ending.Boot? && ActsNextOnly(body.acts)
    case Guarded(body) => !body.ending.Boot? && ActsNextOnly(body.acts)
  }

  predicate NextCalls(calls: seq<Call>) {
    forall i :: 0 <= i < |calls| ==> calls[i].how.Next? && calls[i].fn.User? && NextOnly(calls[i].fn.code)
  }

  function FnPreorder(f: StepFn): seq<StepFn> {
    if f.User? then Preorder(f.code) else []
  }

  function CallPreorder(c: Call): seq<StepFn> { FnPreorder(c.fn) }

  function TuplePreorder(t: StepTuple): seq<StepFn> { FnPreorder(t.fn) }

  function CallsPreorder(calls: seq<Call>): seq<StepFn> { FlatMap(calls, CallPreorder) }

  function StepsPreorder(steps: seq<StepTuple>): seq<StepFn> { FlatMap(steps, TuplePreorder) }

  lemma {:induction false} ActsPreorderIsCalls(acts: seq<Act>)
    requires ActsNextOnly(acts)
    ensures NextCalls(ActsCalls(acts)) && ActsPreorder(acts) == CallsPreorder(ActsCalls(acts))
    decreases acts
  {
    if acts != [] {
      ActPreorderIsCalls(acts[0]);
      ActsPreorderIsCalls(acts[1..]);
      FlatMapConcat(ActCalls(acts[0]), if ActOutcome(acts[0]).Normal? then ActsCalls(acts[1..]) else [], CallPreorder);
    }
  }

  lemma {:induction false} ActPreorderIsCalls(a: Act)
    requires ActNextOnly(a)
    ensures NextCalls(ActCalls(a)) && ActPreorder(a) == CallsPreorder(ActCalls(a))
    decreases a
  {
    match a
    case Queue(how, code) =>
      FlatMapSingle(Call(how, User(code)), CallPreorder);
    case RunTest(_, _) =>
    case RunGroup(_, body) =>
      ActsPreorderIsCalls(body.acts);
      assert Calls(body) == ActsCalls(body.acts);
    case Guarded(body) =>
      ActsPreorderIsCalls(body.acts);
      assert Calls(body) == ActsCalls(body.acts);
  }

  lemma {:induction false} PickedNextCalls(calls: seq<Call>, a: seq<Code>)
    requires NextCalls(calls)
    ensures Picked(calls, Prepend, a) == [] && Picked(calls, Append, a) == []
    ensures StepsPreorder(Picked(calls, Next, a)) == CallsPreorder(calls)
    ensures NextSteps(Picked(calls, Next, a))
  {
    if calls != [] {
      PickedNextCalls(calls[1..], a);
      var x := StepTuple(a, calls[0].fn);
      assert Picked(calls, Next, a) == [x] + Picked(calls[1..], Next, a);
      assert ([x] + Picked(calls[1..], Next, a))[1..] == Picked(calls[1..], Next, a);
    }
  }

  predicate NextSteps(steps: seq<StepTuple>) {
    forall i :: 0 <= i < |steps| ==> steps[i].fn.User? && NextOnly(steps[i].fn.code)
  }

  /** With next_step only, a step's own steps go between it and the older ones. */
  lemma {:induction false} NextOnlyStepsAfter(steps: seq<StepTuple>)
    requires steps != [] && NextSteps(steps)
    ensures var code, a := steps[0].fn.code, HeadAncestry(steps);
            && StepsAfter(steps) == InitTuple(code, a) + (Picked(Calls(code.body), Next, a) + steps[1..])
            && NextSteps(InitTuple(code, a)) && NextSteps(Picked(Calls(code.body), Next, a))
            && StepsPreorder(Picked(Calls(code.body), Next, a)) == ActsPreorder(code.body.acts)
  {
    var code, a := steps[0].fn.code, HeadAncestry(steps);
    var calls := Calls(code.body);
    ActsPreorderIsCalls(code.body.acts);
    assert calls == ActsCalls(code.body.acts);
    PickedNextCalls(calls, a);
    assert Layout(calls, a, steps[1..]) == Picked(calls, Next, a) + steps[1..];
  }

  lemma NextOnlyStep(steps: seq<StepTuple>)
    requires steps != [] && NextSteps(steps)
    ensures NextSteps(StepsAfter(steps))
    ensures StepsPreorder(steps) == [steps[0].fn] + StepsPreorder(StepsAfter(steps))
  {
    var code, a := steps[0].fn.code, HeadAncestry(steps);
    var init, nxt := InitTuple(code, a), Picked(Calls(code.body), Next, a);
    NextOnlyStepsAfter(steps);
    FlatMapConcat(init, nxt + steps[1..], TuplePreorder);
    FlatMapConcat(nxt, steps[1..], TuplePreorder);
    InitPreorder(code, a);
    var x, own := [steps[0].fn], StepsPreorder(init);
    var acts, rest := ActsPreorder(code.body.acts), StepsPreorder(steps[1..]);
    assert StepsPreorder(steps) == x + own + acts + rest;
    Assoc(x + own, acts, rest);
    Assoc(x, own, acts + rest);
  }

  lemma InitPreorder(code: Code, a: seq<Code>)
    requires NextOnly(code)
    ensures Preorder(code) == [User(code)] + StepsPreorder(InitTuple(code, a)) + ActsPreorder(code.body.acts)
  {
    var init := InitTuple(code, a);
    if init != [] {
      FlatMapSingle(init[0], TuplePreorder);
    }
  }

  lemma {:induction false} FreeTraceIsPreorder(m: Machine, steps: seq<StepTuple>)
    requires NextSteps(steps)
    ensures FreeTrace(m, steps) == StepsPreorder(steps)
    decreases Size(steps)
  {
    if steps != [] {
      StepShrinks(steps);
      NextOnlyStep(steps);
      FreeTraceIsPreorder(m, StepsAfter(steps));
    }
  }

  /** A job that queues with next_step only runs the preorder of its step tree,
      however often it is interrupted on the way. */
  lemma NextStepsRunInPreorder(m: Machine, c: Code, restarts: nat)
    requires NextOnly(c) && Throughout(c, Quiet)
    ensures var (t, v) := RunJob(m, StartJob(Some(c)), restarts);
            (v.Paused? ==> t.ran <= Preorder(c)) && (!v.Paused? ==> t.ran == Preorder(c))
  {
    var s := StartJob(Some(c));
    assert s.steps == [StepTuple([], User(c))];
    assert NextSteps(s.steps);
    RestartsKeepTrace(m, s, restarts);
    FreeTraceIsPreorder(m, s.steps);
    FlatMapSingle(s.steps[0], TuplePreorder);
    assert s.ran == [] && [] + FreeTrace(m, s.steps) == Preorder(c);
    var (t, v) := RunJob(m, s, restarts);
    if !v.Paused? { assert t.ran + [] == t.ran; }
  }
}
