/** Deliberate reboots that end their step are invisible in the sequence of steps. */
module JobReboots {
  import opened Options
  import opened Sequences
  import opened JobPrograms
  import opened JobSpec
  import opened JobEngine
  import opened JobRuns
  import opened JobTraces
  import opened JobTrees
  import opened JobStatus

  // ------------------------------------- the same program without its reboots

  /** The step function with a reboot or job.quit at its very end replaced by a
      plain return, and the same done to every step it queues. */
  function Erase(c: Code): Code
    decreases c
  {
    Code(c.name, c.home, Body(EraseActs(c.body.acts),
      match c.body.ending
      case Boot(_, _, _, _, _) => Return(None)
      case Quit => Return(None)
      case Return(Some(init)) => Return(Some(Erase(init)))
      case e => e))
  }

  function EraseActs(acts: seq<Act>): seq<Act>
    decreases acts
  {
    if acts == [] then [] else [EraseAct(acts[0])] + EraseActs(acts[1..])
  }

  function EraseAct(a: Act): Act
    decreases a
  {
    match a
    case Queue(how, code) => Queue(how, Erase(code))
    case RunTest(_, _) => a
    case RunGroup(tag, body) => RunGroup(tag, Body(EraseActs(body.acts), body.ending))
    case Guarded(body) => Guarded(Body(EraseActs(body.acts), body.ending))
  }

  predicate StaysUp(b: Body) { !Restartable(Outcome(b)) }

  predicate NoBoot(call: PostBoot) { false }

  /** No step of the tree under `c` loses the process. */
  predicate OneProcess(c: Code) {
    Throughout(c, StaysUp)
  }

  function EraseFn(f: StepFn): seq<StepFn> {
    if f.User? then [User(Erase(f.code))] else []
  }

  function EraseCall(c: Call): seq<Call> {
    if c.fn.User? then [Call(c.how, User(Erase(c.fn.code)))] else []
  }

  function EraseAll(cs: seq<Code>): seq<Code> {
    seq(|cs|, i requires 0 <= i < |cs| => Erase(cs[i]))
  }

  function EraseStep(t: StepTuple): seq<StepTuple> {
    if t.fn.User? then [StepTuple(EraseAll(t.ancestry), User(Erase(t.fn.code)))] else []
  }

  function EraseCalls(calls: seq<Call>): seq<Call> { FlatMap(calls, EraseCall) }

  function EraseSteps(steps: seq<StepTuple>): seq<StepTuple> { FlatMap(steps, EraseStep) }

  /** A trace with the post-boot steps dropped and the reboots erased. */
  function EraseTrace(fns: seq<StepFn>): seq<StepFn> { FlatMap(fns, EraseFn) }

  lemma {:induction false} EraseStepsReverse(s: seq<StepTuple>)
    ensures EraseSteps(Reverse(s)) == Reverse(EraseSteps(s))
  {
    if s != [] {
      EraseStepsReverse(s[1..]);
      FlatMapConcat(Reverse(s[1..]), [s[0]], EraseStep);
      FlatMapSingle(s[0], EraseStep);
      if s[0].fn.User? {
        assert EraseSteps(s)[1..] == EraseSteps(s[1..]);
      } else {
        assert EraseSteps(s) == EraseSteps(s[1..]);
      }
    }
  }

  lemma {:induction false} ErasePicked(calls: seq<Call>, how: Queueing, a: seq<Code>)
    ensures EraseSteps(Picked(calls, how, a)) == Picked(EraseCalls(calls), how, EraseAll(a))
  {
    if calls != [] {
      ErasePicked(calls[1..], how, a);
      var x := StepTuple(a, calls[0].fn);
      if calls[0].fn.User? {
        var y := Call(calls[0].how, User(Erase(calls[0].fn.code)));
        assert EraseCalls(calls) == [y] + EraseCalls(calls[1..]);
        assert EraseCalls(calls)[1..] == EraseCalls(calls[1..]);
      } else {
        assert EraseCalls(calls) == EraseCalls(calls[1..]);
      }
      if calls[0].how == how {
        assert Picked(calls, how, a) == [x] + Picked(calls[1..], how, a);
        assert Picked(calls, how, a)[1..] == Picked(calls[1..], how, a);
      } else {
        assert Picked(calls, how, a) == Picked(calls[1..], how, a);
      }
    }
  }

  lemma {:induction false} EraseActsFacts(acts: seq<Act>)
    ensures ActsOutcome(EraseActs(acts)) == ActsOutcome(acts)
    ensures !Restartable(ActsOutcome(acts)) ==> ActsCalls(EraseActs(acts)) == EraseCalls(ActsCalls(acts))
    decreases acts
  {
    if acts != [] {
      EraseActFacts(acts[0]);
      EraseActsFacts(acts[1..]);
      assert EraseActs(acts)[0] == EraseAct(acts[0]) && EraseActs(acts)[1..] == EraseActs(acts[1..]);
      if ActOutcome(acts[0]).Normal? {
        FlatMapConcat(ActCalls(acts[0]), ActsCalls(acts[1..]), EraseCall);
      } else {
        assert ActsCalls(acts) == ActCalls(acts[0]);
      }
    }
  }

  lemma {:induction false} EraseActFacts(a: Act)
    ensures ActOutcome(EraseAct(a)) == ActOutcome(a)
    ensures !Restartable(ActOutcome(a)) ==> ActCalls(EraseAct(a)) == EraseCalls(ActCalls(a))
    decreases a
  {
    match a
    case Queue(how, code) =>
      FlatMapSingle(Call(how, User(code)), EraseCall);
    case RunTest(_, _) =>
    case RunGroup(_, body) =>
      EraseActsFacts(body.acts);
      if !Restartable(ActOutcome(a)) { CallsWithoutBoot(body); }
    case Guarded(body) =>
      EraseActsFacts(body.acts);
      if !Restartable(ActOutcome(a)) { CallsWithoutBoot(body); }
  }

  lemma CallsWithoutBoot(b: Body)
    requires !Restartable(Outcome(b))
    ensures Calls(b) == ActsCalls(b.acts)
    ensures Calls(Body(EraseActs(b.acts), b.ending)) == ActsCalls(EraseActs(b.acts))
  {
    EraseActsFacts(b.acts);
    assert forall c: seq<Call> :: c + [] == c;
  }

  /** Erasing reboots leaves functions in the frames they are in. */
  lemma {:induction false} EraseKept(a: seq<Code>, c: Code)
    ensures Kept(EraseAll(a), User(Erase(c))) == EraseAll(Kept(a, User(c)))
    decreases |a|
  {
    if |a| >= 2 && FrameHolds(|a| - 1, User(c)) {
      assert EraseAll(a)[..|a| - 1] == EraseAll(a[..|a| - 1]);
      EraseKept(a[..|a| - 1], c);
    }
  }

  /** Erasing a step commutes with running it, as far as the list goes. */
  lemma EraseStepsAfter(steps: seq<StepTuple>)
    requires steps != [] && steps[0].fn.User? && OneProcess(Erase(steps[0].fn.code))
    ensures EraseSteps(steps) != [] && EraseSteps(StepsAfter(steps)) == StepsAfter(EraseSteps(steps))
  {
    var c, a := steps[0].fn.code, HeadAncestry(steps);
    var head := StepTuple(EraseAll(steps[0].ancestry), User(Erase(c)));
    var calls := Calls(c.body);
    assert EraseSteps(steps) == [head] + EraseSteps(steps[1..]);
    assert EraseSteps(steps)[1..] == EraseSteps(steps[1..]);
    EraseKept(steps[0].ancestry, c);
    EraseCallsOf(c);
    EraseLayout(calls, a, steps[1..]);
    FlatMapConcat(InitTuple(c, a), Layout(calls, a, steps[1..]), EraseStep);
    EraseInit(c, a);
  }

  lemma EraseInit(c: Code, a: seq<Code>)
    requires OneProcess(Erase(c))
    ensures EraseSteps(InitTuple(c, a)) == InitTuple(Erase(c), EraseAll(a))
  {
    EraseActsFacts(c.body.acts);
    assert EraseAll(a + [c]) == EraseAll(a) + [Erase(c)];
    var init := InitTuple(c, a);
    if init != [] {
      FlatMapSingle(init[0], EraseStep);
    }
  }

  lemma EraseCallsOf(c: Code)
    requires OneProcess(Erase(c))
    ensures Calls(Erase(c).body) == EraseCalls(Calls(c.body))
  {
    EraseActsFacts(c.body.acts);
    if ActsOutcome(c.body.acts).Normal? && c.body.ending.Boot? {
      var boot := [Call(Prepend, AfterBoot(BootCall(c.body.ending)))];
      FlatMapSingle(boot[0], EraseCall);
      FlatMapConcat(ActsCalls(c.body.acts), boot, EraseCall);
      assert Calls(c.body) == ActsCalls(c.body.acts) + boot;
    } else {
      assert Calls(c.body) == ActsCalls(c.body.acts);
    }
    assert Calls(Erase(c).body) == ActsCalls(EraseActs(c.body.acts));
  }

  lemma EraseLayout(calls: seq<Call>, a: seq<Code>, rest: seq<StepTuple>)
    ensures EraseSteps(Layout(calls, a, rest)) == Layout(EraseCalls(calls), EraseAll(a), EraseSteps(rest))
  {
    var pre, nxt, app := Picked(calls, Prepend, a), Picked(calls, Next, a), Picked(calls, Append, a);
    FlatMapConcat(Reverse(pre), nxt, EraseStep);
    FlatMapConcat(Reverse(pre) + nxt, rest, EraseStep);
    FlatMapConcat(Reverse(pre) + nxt + rest, app, EraseStep);
    EraseStepsReverse(pre);
    ErasePicked(calls, Prepend, a);
    ErasePicked(calls, Next, a);
    ErasePicked(calls, Append, a);
  }

  // ----------------------------------------- steps that never lose the process

  predicate Steady(steps: seq<StepTuple>) {
    AllSteps(steps, StaysUp, NoBoot)
  }

  lemma {:induction false} NoBootCalls(calls: seq<Call>)
    requires Boots(calls) == 0
    ensures BootsMeet(calls, NoBoot)
  {
    if calls != [] {
      NoBootCalls(calls[1..]);
    }
  }

  lemma SteadyStepsAfter(steps: seq<StepTuple>)
    requires steps != [] && Steady(steps)
    ensures Steady(StepsAfter(steps))
  {
    assert FnThroughout(steps[0].fn, StaysUp, NoBoot);
    var b := steps[0].fn.code.body;
    BodyBoots(b);
    NoBootCalls(Calls(b));
    AllStepsAfter(steps, StaysUp, NoBoot);
  }

  /** A steady list is worked off in one process. */
  lemma {:induction false} SteadyLoop(m: Machine, s: Job)
    requires QuietSteps(s.steps)
    requires Steady(s.steps)
    ensures RunLoop(m, s).0.ran == s.ran + FreeTrace(m, s.steps) && !Restartable(RunLoop(m, s).1)
    decreases Size(s.steps)
  {
    LoopTrace(m, s);
    if s.steps != [] {
      StepTaken(m, s);
      var (s1, g) := RunStep(m, s);
      if g.Normal? {
        SteadyStepsAfter(s.steps);
        SteadyLoop(m, s1);
        LoopTrace(m, s1);
      }
    }
    var (t, g) := RunLoop(m, s);
    assert t.ran + [] == t.ran;
  }

  // -------------------------------------------------------------- the theorem

  predicate ErasedSteady(steps: seq<StepTuple>) {
    forall i :: 0 <= i < |steps| && steps[i].fn.User? ==> OneProcess(Erase(steps[i].fn.code))
  }

  lemma {:induction false} EraseStepsSteady(steps: seq<StepTuple>)
    ensures ErasedSteady(steps) <==> Steady(EraseSteps(steps))
  {
    if steps != [] {
      EraseStepsSteady(steps[1..]);
      if steps[0].fn.User? {
        assert EraseSteps(steps)[0].fn == User(Erase(steps[0].fn.code));
        assert EraseSteps(steps)[1..] == EraseSteps(steps[1..]);
      } else {
        assert EraseSteps(steps) == EraseSteps(steps[1..]);
      }
    }
  }

  /** The post-boot step finds what it should. */
  function Passes(m: Machine): PostBoot -> bool {
    call => PostBootSignal(m, call).Normal?
  }

  /** The post-boot steps of the reboots that a body begins do. */
  function BootsPass(m: Machine): Body -> bool {
    b => BootsMeet(Calls(b), Passes(m))
  }

  /** Every reboot in the list and in the trees below it is of the right kernel. */
  predicate Verifies(m: Machine, steps: seq<StepTuple>) {
    AllSteps(steps, BootsPass(m), Passes(m))
  }

  /** What follows the head of the list in the reference trace. */
  function Rest(m: Machine, steps: seq<StepTuple>): seq<StepFn>
    requires steps != []
  {
    if StopsJob(StepOutcome(m, steps[0].fn)) then [] else FreeTrace(m, StepsAfter(steps))
  }

  /** Erasing the reboots of a step does not change whether it stops the job. */
  lemma EraseKeepsStopping(c: Code)
    requires OneProcess(Erase(c))
    ensures StopsJob(StepSignal(Outcome(Erase(c).body))) == StopsJob(StepSignal(Outcome(c.body)))
  {
    EraseActsFacts(c.body.acts);
  }

  lemma EraseHead(m: Machine, steps: seq<StepTuple>, more: seq<StepFn>)
    requires steps != [] && steps[0].fn.User?
    ensures EraseTrace([steps[0].fn] + more) == [User(Erase(steps[0].fn.code))] + EraseTrace(more)
    ensures EraseSteps(steps) != [] && EraseSteps(steps)[0].fn == User(Erase(steps[0].fn.code))
  {
    assert ([steps[0].fn] + more)[1..] == more;
  }

  lemma {:induction false} ErasedFreeTrace(m: Machine, steps: seq<StepTuple>)
    requires Verifies(m, steps) && ErasedSteady(steps)
    ensures EraseTrace(FreeTrace(m, steps)) == FreeTrace(m, EraseSteps(steps))
    decreases Size(steps)
  {
    if steps != [] {
      StepShrinks(steps);
      if steps[0].fn.AfterBoot? {
        assert FnThroughout(steps[0].fn, BootsPass(m), Passes(m));
        assert Verifies(m, steps[1..]);
        ErasedFreeTrace(m, steps[1..]);
        assert EraseSteps(steps) == EraseSteps(steps[1..]);
        assert FreeTrace(m, steps)[1..] == FreeTrace(m, steps[1..]);
      } else {
        ErasedFreeTraceUser(m, steps);
      }
    }
  }

  lemma {:induction false} ErasedFreeTraceUser(m: Machine, steps: seq<StepTuple>)
    requires Verifies(m, steps) && ErasedSteady(steps) && steps != [] && steps[0].fn.User?
    ensures EraseTrace(FreeTrace(m, steps)) == FreeTrace(m, EraseSteps(steps))
    decreases Size(steps), 0
  {
    var c := steps[0].fn.code;
    EraseKeepsStopping(c);
    EraseHead(m, steps, Rest(m, steps));
    EraseStepsAfter(steps);
    if !StopsJob(StepOutcome(m, steps[0].fn)) {
      StepShrinks(steps);
      StepsAfterStaySteady(steps);
      assert FnThroughout(steps[0].fn, BootsPass(m), Passes(m));
      AllStepsAfter(steps, BootsPass(m), Passes(m));
      ErasedFreeTrace(m, StepsAfter(steps));
    }
  }

  lemma StepsAfterStaySteady(steps: seq<StepTuple>)
    requires ErasedSteady(steps) && steps != [] && steps[0].fn.User?
    ensures ErasedSteady(StepsAfter(steps))
  {
    EraseStepsAfter(steps);
    EraseStepsSteady(steps);
    SteadyStepsAfter(EraseSteps(steps));
    EraseStepsSteady(StepsAfter(steps));
  }

  /** Erasing reboots adds no calls to functions that hand back steps. */
  lemma {:induction false} EraseQuiet(c: Code)
    requires Throughout(c, Quiet)
    ensures Throughout(Erase(c), Quiet)
    decreases c
  {
    EraseActsFacts(c.body.acts);
    EraseActsQuiet(c.body.acts);
    if c.body.ending.Return? && c.body.ending.init.Some? {
      EraseQuiet(c.body.ending.init.value);
    }
  }

  lemma {:induction false} EraseActsQuiet(acts: seq<Act>)
    requires ActsThroughout(acts, Quiet)
    ensures ActsThroughout(EraseActs(acts), Quiet)
    decreases acts
  {
    if acts != [] {
      EraseActQuiet(acts[0]);
      EraseActsQuiet(acts[1..]);
      assert EraseActs(acts)[0] == EraseAct(acts[0]) && EraseActs(acts)[1..] == EraseActs(acts[1..]);
    }
  }

  lemma {:induction false} EraseActQuiet(a: Act)
    requires ActThroughout(a, Quiet)
    ensures ActThroughout(EraseAct(a), Quiet)
    decreases a
  {
    match a
    case Queue(_, code) => EraseQuiet(code);
    case RunTest(_, _) =>
    case RunGroup(_, body) => EraseActsQuiet(body.acts);
    case Guarded(body) => EraseActsQuiet(body.acts);
  }

  /** A job whose deliberate reboots each end their step runs, over all its
      processes, the very steps that the program without those reboots runs in
      one process; the post-boot steps are the only additions. */
  lemma RebootsAreTransparent(m: Machine, c: Code, restarts: nat)
    requires Throughout(c, Quiet) && Throughout(c, BootsPass(m)) && OneProcess(Erase(c))
    ensures var (t, v) := RunJob(m, StartJob(Some(c)), restarts);
            !v.Paused? ==>
              Throughout(Erase(c), Quiet) && EraseTrace(t.ran) == RunLoop(m, StartJob(Some(Erase(c)))).0.ran
    ensures restarts >= CodeSize(c) ==> !RunJob(m, StartJob(Some(c)), restarts).1.Paused?
  {
    EraseQuiet(c);
    var s, e := StartJob(Some(c)), StartJob(Some(Erase(c)));
    ErasedStart(c);
    var (t, v) := RunJob(m, s, restarts);
    RestartsKeepTrace(m, s, restarts);
    assert Verifies(m, s.steps);
    ErasedFreeTrace(m, s.steps);
    SteadyLoop(m, e);
    if restarts >= CodeSize(c) {
      EnoughRestarts(m, s, restarts);
    }
    if !v.Paused? {
      assert t.ran + [] == t.ran;
      assert [] + FreeTrace(m, s.steps) == FreeTrace(m, s.steps);
      assert [] + FreeTrace(m, e.steps) == FreeTrace(m, e.steps);
    }
  }

  lemma ErasedStart(c: Code)
    ensures var s, e := StartJob(Some(c)), StartJob(Some(Erase(c)));
            && s.steps == [StepTuple([], User(c))] && e.steps == [StepTuple([], User(Erase(c)))]
            && EraseSteps(s.steps) == e.steps
            && s.ran == [] && e.ran == [] && Size(s.steps) == CodeSize(c)
  {
    var s, e := StartJob(Some(c)), StartJob(Some(Erase(c)));
    assert s.steps == [StepTuple([], User(c))] && e.steps == [StepTuple([], User(Erase(c)))];
    FlatMapSingle(s.steps[0], EraseStep);
    assert EraseAll([]) == [];
    SumSingle(s.steps[0], TupleSize);
  }
}
