/** The status log across a whole job: what the indent is when runjob asserts
    that it is 0, and how reboots and crashes are closed in the log. */
module JobStatus {
  import opened Options
  import opened Sequences
  import opened JobPrograms
  import opened JobSpec
  import opened JobEngine
  import opened JobRuns
  import opened JobTraces
  import opened JobMarks
  import opened JobTrees

  // ---------------------------------------------------- the indent and the log

  function IsStart(e: Entry): nat { if e.status.Start? then 1 else 0 }

  function IsEnd(e: Entry): nat { if e.status.End? then 1 else 0 }

  /** The STARTs in the log without an END. */
  function Opened(log: seq<Entry>): int {
    Sum(log, IsStart) - Sum(log, IsEnd)
  }

  lemma OpenedMore(log: seq<Entry>, e: Entry)
    ensures Opened(log + [e]) == Opened(log) + Delta(e.status)
  {
    SumAppend(log, e, IsStart);
    SumAppend(log, e, IsEnd);
  }

  /** The indent is what the log says, and the insertion index is in the list. */
  ghost predicate Sound(s: Job) {
    s.indent == Opened(s.log) && s.index <= |s.steps|
  }

  // --------------------------------------------------- pending post-boot steps

  function IsBootStep(t: StepTuple): nat { IsBoot(t.fn) }

  /** Post-boot steps in the list: the reboots that are still open. */
  function Pending(steps: seq<StepTuple>): nat { Sum(steps, IsBootStep) }

  /** A post-boot step is never anywhere but at the head of the list. */
  ghost predicate BootAtHead(steps: seq<StepTuple>) {
    steps != [] ==> Pending(steps[1..]) == 0
  }

  lemma {:induction false} PickedBoots(calls: seq<Call>, a: seq<Code>)
    ensures Pending(Picked(calls, Prepend, a)) + Pending(Picked(calls, Next, a))
            + Pending(Picked(calls, Append, a)) == Boots(calls)
  {
    if calls != [] {
      PickedBoots(calls[1..], a);
      PickedHeadBoots(calls, Prepend, a);
      PickedHeadBoots(calls, Next, a);
      PickedHeadBoots(calls, Append, a);
    }
  }

  lemma PickedHeadBoots(calls: seq<Call>, how: Queueing, a: seq<Code>)
    requires calls != []
    ensures Pending(Picked(calls, how, a))
            == Pending(Picked(calls[1..], how, a)) + if calls[0].how == how then IsBootCall(calls[0]) else 0
  {
    var x := StepTuple(a, calls[0].fn);
    if calls[0].how == how {
      SumConcat([x], Picked(calls[1..], how, a), IsBootStep);
      SumSingle(x, IsBootStep);
    } else {
      assert Picked(calls, how, a) == Picked(calls[1..], how, a);
    }
  }

  lemma LayoutBoots(calls: seq<Call>, a: seq<Code>, rest: seq<StepTuple>)
    ensures Pending(Layout(calls, a, rest)) == Boots(calls) + Pending(rest)
  {
    var pre, nxt, app := Picked(calls, Prepend, a), Picked(calls, Next, a), Picked(calls, Append, a);
    PickedBoots(calls, a);
    SumReverse(pre, IsBootStep);
    SumConcat(Reverse(pre), nxt, IsBootStep);
    SumConcat(Reverse(pre) + nxt, rest, IsBootStep);
    SumConcat(Reverse(pre) + nxt + rest, app, IsBootStep);
  }

  /** A body begins at most one reboot, and then its last call queued the
      post-boot step in front and the process is on its way out. */
  predicate BootIsLast(calls: seq<Call>, g: Signal) {
    || Boots(calls) == 0
    || (g.Continue? && calls != [] && calls[|calls| - 1].how.Prepend? && calls[|calls| - 1].fn.AfterBoot?
        && Boots(calls[..|calls| - 1]) == 0)
  }

  lemma {:induction false} BodyBoots(b: Body)
    ensures BootIsLast(Calls(b), Outcome(b))
    decreases b
  {
    ActsBoots(b.acts);
    if ActsOutcome(b.acts).Normal? && b.ending.Boot? {
      assert Calls(b)[..|Calls(b)| - 1] == ActsCalls(b.acts);
    } else {
      assert Calls(b) == ActsCalls(b.acts);
    }
  }

  lemma {:induction false} ActsBoots(acts: seq<Act>)
    ensures BootIsLast(ActsCalls(acts), ActsOutcome(acts))
    decreases acts
  {
    if acts != [] {
      ActBoots(acts[0]);
      if ActOutcome(acts[0]).Normal? {
        ActsBoots(acts[1..]);
        var a, b := ActCalls(acts[0]), ActsCalls(acts[1..]);
        SumConcat(a, b, IsBootCall);
        if Boots(b) != 0 {
          assert (a + b)[..|a + b| - 1] == a + b[..|b| - 1];
          SumConcat(a, b[..|b| - 1], IsBootCall);
        }
      } else {
        assert ActsCalls(acts) == ActCalls(acts[0]);
      }
    }
  }

  lemma {:induction false} ActBoots(a: Act)
    ensures BootIsLast(ActCalls(a), ActOutcome(a))
    decreases a
  {
    match a
    case Queue(how, code) => SumSingle(Call(how, User(code)), IsBootCall);
    case RunTest(_, _) =>
    case RunGroup(_, body) => BodyBoots(body);
    case Guarded(body) => BodyBoots(body);
  }

  lemma {:induction false} PickedLastPrepend(calls: seq<Call>, a: seq<Code>)
    requires calls != [] && calls[|calls| - 1].how.Prepend?
    ensures Reverse(Picked(calls, Prepend, a)) != []
    ensures Reverse(Picked(calls, Prepend, a))[0] == StepTuple(a, calls[|calls| - 1].fn)
  {
    if |calls| == 1 {
      assert Picked(calls, Prepend, a) == [StepTuple(a, calls[0].fn)] + [];
      assert Reverse([StepTuple(a, calls[0].fn)]) == [] + [StepTuple(a, calls[0].fn)];
    } else {
      PickedLastPrepend(calls[1..], a);
      if calls[0].how.Prepend? {
        var x := StepTuple(a, calls[0].fn);
        assert Picked(calls, Prepend, a) == [x] + Picked(calls[1..], Prepend, a);
        assert Picked(calls, Prepend, a)[1..] == Picked(calls[1..], Prepend, a);
      } else {
        assert Picked(calls, Prepend, a) == Picked(calls[1..], Prepend, a);
      }
    }
  }

  lemma InitNoBoots(code: Code, a: seq<Code>)
    ensures Pending(InitTuple(code, a)) == 0
  {
    if InitTuple(code, a) != [] {
      SumSingle(InitTuple(code, a)[0], IsBootStep);
    }
  }

  lemma PendingAfterUser(steps: seq<StepTuple>)
    requires steps != [] && Pending(steps[1..]) == 0 && steps[0].fn.User?
    ensures Pending(StepsAfter(steps)) == Boots(Calls(steps[0].fn.code.body))
  {
    var c, a := steps[0].fn.code, HeadAncestry(steps);
    LayoutBoots(Calls(c.body), a, steps[1..]);
    InitNoBoots(c, a);
    SumConcat(InitTuple(c, a), Layout(Calls(c.body), a, steps[1..]), IsBootStep);
  }

  lemma BootCounts(calls: seq<Call>, g: Signal)
    requires BootIsLast(calls, g) && Boots(calls) > 0
    ensures Boots(calls) == 1
  {
    var n := |calls| - 1;
    SumAppend(calls[..n], calls[n], IsBootCall);
    assert calls[..n] + [calls[n]] == calls;
  }

  /** A reboot's post-boot step is the first to run after it. */
  lemma BootFirst(steps: seq<StepTuple>)
    requires steps != [] && steps[0].fn.User? && Boots(Calls(steps[0].fn.code.body)) > 0
    ensures StepsAfter(steps) != [] && StepsAfter(steps)[0].fn.AfterBoot?
    ensures Boots(Calls(steps[0].fn.code.body)) == 1
  {
    var c, a := steps[0].fn.code, HeadAncestry(steps);
    BodyBoots(c.body);
    BootCounts(Calls(c.body), Outcome(c.body));
    PickedLastPrepend(Calls(c.body), a);
    assert InitTuple(c, a) == [];
  }

  lemma PendingAfter(steps: seq<StepTuple>)
    requires steps != [] && BootAtHead(steps)
    ensures steps[0].fn.User? ==> Pending(StepsAfter(steps)) == Boots(Calls(steps[0].fn.code.body))
    ensures steps[0].fn.AfterBoot? ==> Pending(StepsAfter(steps)) == 0
    ensures BootAtHead(StepsAfter(steps))
  {
    if steps[0].fn.AfterBoot? {
      NoBootsAtHead(steps[1..]);
    } else {
      PendingAfterUser(steps);
      if Boots(Calls(steps[0].fn.code.body)) == 0 {
        NoBootsAtHead(StepsAfter(steps));
      } else {
        BootFirst(steps);
      }
    }
  }

  lemma NoBootsAtHead(steps: seq<StepTuple>)
    requires Pending(steps) == 0
    ensures BootAtHead(steps)
  {
  }

  // ------------------------------------------------------------ the indent ledger

  /** Each time the process is lost: the groups it was inside, and whether the
      unexpected_reboot mark was still set when it went. */
  datatype Loss = Loss(depth: nat, marked: bool)

  /** Groups left open by the step a process ended with. */
  function DepthAtLoss(s: Job): nat {
    if s.ran == [] || s.ran[|s.ran| - 1].AfterBoot? then 0
    else LeftInside(s.ran[|s.ran| - 1].code.body)
  }

  function Losses(m: Machine, s: Job, restarts: nat): seq<Loss>
    requires QuietSteps(s.steps)
    decreases restarts
  {
    var (s1, g) := RunLoop(m, s);
    if Restartable(g) && restarts > 0
    then [Loss(DepthAtLoss(s1), s1.marker.Some?)] + Losses(m, Resume(s1), restarts - 1)
    else []
  }

  function Drift(losses: seq<Loss>): int {
    if losses == [] then 0
    else losses[0].depth - (if losses[0].marked then 1 else 0) + Drift(losses[1..])
  }

  lemma DriftStep(first: Loss, more: seq<Loss>)
    ensures Drift([first] + more) == first.depth - (if first.marked then 1 else 0) + Drift(more)
  {
    assert ([first] + more)[1..] == more;
  }

  lemma UserStepIndent(s: Job, code: Code)
    ensures var (t, g) := RunUserStep(s, code);
            && t.indent == s.indent + LeftInside(code.body) + Boots(Calls(code.body))
            && (!LeavesProcess(g) ==> LeftInside(code.body) == 0 && Boots(Calls(code.body)) == 0)
  {
    BodyEffect(code.body, s);
    NothingLeftOpen(code.body);
  }

  lemma PostBootIndent(m: Machine, s: Job, call: PostBoot)
    ensures RunPostBoot(m, s, call).0.indent == s.indent - 1 && !LeavesProcess(RunPostBoot(m, s, call).1)
  {
  }

  lemma StepIndent(m: Machine, s: Job)
    requires s.steps != [] && QuietSteps(s.steps) && BootAtHead(s.steps)
    ensures var (t, g) := RunStep(m, s);
            && t.indent - Pending(t.steps) == s.indent - Pending(s.steps) + DepthAtLoss(t)
            && BootAtHead(t.steps)
            && (!LeavesProcess(g) ==> DepthAtLoss(t) == 0 && Pending(t.steps) == 0)
  {
    StepTaken(m, s);
    PendingAfter(s.steps);
    assert QuietAncestors(s.steps[0].ancestry);
    FramedQuietly(m, s);
    match s.steps[0].fn
    case User(c) => UserStepIndent(Framed(s), c);
    case AfterBoot(call) => PostBootIndent(m, Framed(s), call);
  }

  lemma {:induction false} LoopIndent(m: Machine, s: Job)
    requires QuietSteps(s.steps)
    requires BootAtHead(s.steps)
    ensures var (t, g) := RunLoop(m, s);
            && t.indent - Pending(t.steps)
               == s.indent - Pending(s.steps) + (if LeavesProcess(g) then DepthAtLoss(t) else 0)
            && BootAtHead(t.steps)
            && (!LeavesProcess(g) ==> Pending(t.steps) == 0)
    decreases Size(s.steps)
  {
    if s.steps != [] {
      StepTaken(m, s);
      StepIndent(m, s);
      var (s1, g) := RunStep(m, s);
      if g.Normal? {
        LoopIndent(m, s1);
      }
    }
  }

  lemma LossesStep(m: Machine, s: Job, restarts: nat)
    requires QuietSteps(s.steps)
    ensures var (s1, g) := RunLoop(m, s);
            Drift(Losses(m, s, restarts))
            == if Restartable(g) && restarts > 0
               then DepthAtLoss(s1) - (if s1.marker.Some? then 1 else 0) + Drift(Losses(m, Resume(s1), restarts - 1))
               else 0
  {
    var (s1, g) := RunLoop(m, s);
    if Restartable(g) && restarts > 0 {
      DriftStep(Loss(DepthAtLoss(s1), s1.marker.Some?), Losses(m, Resume(s1), restarts - 1));
    }
  }

  /** At its assert, runjob finds the indent that the job's process losses have
      left behind: one level for each group lost open, less one for each resume
      that found the unexpected_reboot mark. */
  lemma {:induction false} IndentLedger(m: Machine, s: Job, restarts: nat)
    requires QuietSteps(s.steps)
    requires BootAtHead(s.steps)
    ensures var (t, v) := RunJob(m, s, restarts);
            v.AtAssert? ==> v.indent == s.indent - 1 - Pending(s.steps) + Drift(Losses(m, s, restarts))
    decreases restarts
  {
    LoopIndent(m, s);
    RestartStep(m, s, restarts);
    var (s1, g) := RunLoop(m, s);
    ConcludeFacts(s1, g);
    if Restartable(g) && restarts > 0 {
      IndentLedger(m, Resume(s1), restarts - 1);
    }
    LossesStep(m, s, restarts);
  }

  // --------------------------------------- the ledger, read off the step tree

  function DepthOf(f: StepFn): nat {
    if f.User? then LeftInside(f.code.body) else 0
  }

  /** The mark after building the frames of a step. */
  function FramesMark(ancestors: seq<Code>, mark: Option<string>): Option<string> {
    if ancestors == [] then mark else FramesMark(ancestors[1..], ActsMark(ancestors[0].body.acts, mark))
  }

  /** The mark after a step, given the mark before it. */
  function StepMark(t: StepTuple, mark: Option<string>): Option<string> {
    var framed := FramesMark(t.ancestry, mark);
    if t.fn.User? then ActsMark(t.fn.code.body.acts, framed) else framed
  }

  lemma {:induction false} FramesMarked(ancestors: seq<Code>, s: Job)
    requires Replayable(ancestors)
    ensures RunFrames(ancestors, s).0.marker == FramesMark(ancestors, s.marker)
    decreases |ancestors|
  {
    if ancestors != [] {
      BodyMark(ancestors[0].body, s);
      BodyEffect(ancestors[0].body, s);
      FramesMarked(ancestors[1..], RunBody(ancestors[0].body, s).0);
    }
  }

  /** The drift of a step tree: at each step that loses the process, the groups
      it is inside, less one if a mark is left then. Nothing is run to find it. */
  function TreeDrift(m: Machine, steps: seq<StepTuple>, mark: Option<string>): int
    decreases Size(steps)
  {
    if steps == [] then 0
    else
      StepShrinks(steps);
      var g, after := StepOutcome(m, steps[0].fn), StepMark(steps[0], mark);
      (if Restartable(g) then DepthOf(steps[0].fn) - (if after.Some? then 1 else 0) else 0)
      + if StopsJob(g) then 0 else TreeDrift(m, StepsAfter(steps), after)
  }

  /** How the last process of a step tree ends. */
  function TreeEnd(m: Machine, steps: seq<StepTuple>): Signal
    decreases Size(steps)
  {
    if steps == [] then Normal
    else
      StepShrinks(steps);
      var g := StepOutcome(m, steps[0].fn);
      if StopsJob(g) then g else TreeEnd(m, StepsAfter(steps))
  }

  lemma InFrameMarked(m: Machine, s: Job, fn: StepFn)
    ensures RunInFrame(m, s, fn).0.marker == if fn.User? then ActsMark(fn.code.body.acts, s.marker) else s.marker
  {
    if fn.User? {
      BodyMark(fn.code.body, s);
    }
  }

  lemma StepMarked(m: Machine, s: Job)
    requires s.steps != [] && QuietAncestors(s.steps[0].ancestry)
    ensures RunStep(m, s).0.marker == StepMark(s.steps[0], s.marker)
  {
    FramedQuietly(m, s);
    FramesMarked(s.steps[0].ancestry, PopStep(s));
    InFrameMarked(m, Framed(s), s.steps[0].fn);
  }

  lemma StepDepth(m: Machine, s: Job)
    requires s.steps != [] && QuietAncestors(s.steps[0].ancestry)
    ensures DepthAtLoss(RunStep(m, s).0) == DepthOf(s.steps[0].fn)
  {
    StepLayout(m, s);
  }

  /** What is left of the drift when a process ends. */
  lemma {:induction false} LoopTree(m: Machine, s: Job)
    requires QuietSteps(s.steps)
    ensures var (t, g) := RunLoop(m, s);
            var drift, end := TreeDrift(m, s.steps, s.marker), TreeEnd(m, s.steps);
            && (!Restartable(g) ==> drift == 0 && end == g)
            && (Restartable(g) ==>
                  drift == DepthAtLoss(t) - (if t.marker.Some? then 1 else 0) + TreeDrift(m, t.steps, t.marker)
                  && end == TreeEnd(m, t.steps))
    decreases Size(s.steps)
  {
    if s.steps != [] {
      StepTaken(m, s);
      assert QuietAncestors(s.steps[0].ancestry);
      StepMarked(m, s);
      StepDepth(m, s);
      var (s1, g) := RunStep(m, s);
      if g.Normal? {
        LoopTree(m, s1);
      }
    }
  }

  /** The losses of a job that has ended are those of its step tree. */
  lemma {:induction false} LossesAreTree(m: Machine, s: Job, restarts: nat)
    requires QuietSteps(s.steps)
    requires !RunJob(m, s, restarts).1.Paused?
    ensures Drift(Losses(m, s, restarts)) == TreeDrift(m, s.steps, s.marker)
    decreases restarts
  {
    LoopTree(m, s);
    LossesStep(m, s, restarts);
    RestartStep(m, s, restarts);
    var (s1, g) := RunLoop(m, s);
    ConcludeFacts(s1, g);
    if Restartable(g) {
      LossesAreTree(m, Resume(s1), restarts - 1);
    }
  }

  lemma {:induction false} EndIsTreeEnd(m: Machine, s: Job, restarts: nat)
    requires QuietSteps(s.steps)
    requires !RunJob(m, s, restarts).1.Paused?
    ensures var (t, v) := RunJob(m, s, restarts);
            && (v.Gone? <==> TreeEnd(m, s.steps).Leave?)
            && (v.AtAssert? ==> (EndsGood(t.log) <==> TreeEnd(m, s.steps).Normal?))
    decreases restarts
  {
    LoopTree(m, s);
    LoopTrace(m, s);
    RestartStep(m, s, restarts);
    var (s1, g) := RunLoop(m, s);
    if Restartable(g) && restarts > 0 {
      EndIsTreeEnd(m, Resume(s1), restarts - 1);
    } else {
      ConcludeEntries(s1, g);
    }
  }

  lemma StartBoots(stepInit: Option<Code>)
    ensures var s := StartJob(stepInit); BootAtHead(s.steps) && Pending(s.steps) == 0 && s.indent == 1 && s.marker.None?
  {
    if stepInit.Some? {
      SumSingle(StartJob(stepInit).steps[0], IsBootStep);
    }
  }

  /** The assert holds exactly when the groups that the steps of the tree lose
      open are as many as the resumes that report one. */
  lemma AssertHoldsExactly(m: Machine, stepInit: Option<Code>, restarts: nat)
    requires QuietStart(stepInit)
    requires RunJob(m, StartJob(stepInit), restarts).1.AtAssert?
    ensures RunJob(m, StartJob(stepInit), restarts).1.indent == 0
            <==> TreeDrift(m, StartJob(stepInit).steps, None) == 0
  {
    var s := StartJob(stepInit);
    StartBoots(stepInit);
    IndentLedger(m, s, restarts);
    LossesAreTree(m, s, restarts);
  }

  /** The verdict on a job, known before it starts: with enough restarts it
      exits without an assert if its last step says so, and otherwise reaches
      the assert with the drift of its step tree as the indent. */
  lemma VerdictOfTree(m: Machine, stepInit: Option<Code>, restarts: nat)
    requires QuietStart(stepInit)
    requires restarts >= Size(StartJob(stepInit).steps)
    ensures var steps := StartJob(stepInit).steps;
            RunJob(m, StartJob(stepInit), restarts).1
            == if TreeEnd(m, steps).Leave? then Gone else AtAssert(TreeDrift(m, steps, None))
  {
    var s := StartJob(stepInit);
    StartBoots(stepInit);
    EnoughRestarts(m, s, restarts);
    IndentLedger(m, s, restarts);
    LossesAreTree(m, s, restarts);
    EndIsTreeEnd(m, s, restarts);
  }

  lemma {:induction false} TreeEndsWell(m: Machine, steps: seq<StepTuple>)
    ensures TreeEnd(m, steps).Normal? <==> forall f :: f in FreeTrace(m, steps) ==> !StopsJob(StepOutcome(m, f))
    decreases Size(steps)
  {
    if steps != [] {
      StepShrinks(steps);
      var f := steps[0].fn;
      if StopsJob(StepOutcome(m, f)) {
        assert f in FreeTrace(m, steps);
      } else {
        TreeEndsWell(m, StepsAfter(steps));
        assert FreeTrace(m, steps) == [f] + FreeTrace(m, StepsAfter(steps));
      }
    }
  }

  /** A job that is over has written END GOOD as its last entry exactly when no
      step it ran, in any of its processes, broke the job or exited. */
  lemma GoodExactly(m: Machine, stepInit: Option<Code>, restarts: nat)
    requires QuietStart(stepInit) && !RunJob(m, StartJob(stepInit), restarts).1.Paused?
    ensures var (t, v) := RunJob(m, StartJob(stepInit), restarts);
            v.AtAssert? && EndsGood(t.log) <==> forall f :: f in t.ran ==> !StopsJob(StepOutcome(m, f))
  {
    var s := StartJob(stepInit);
    EndIsTreeEnd(m, s, restarts);
    TreeEndsWell(m, s.steps);
    RestartsKeepTrace(m, s, restarts);
    assert s.ran == [];
    assert [] + FreeTrace(m, s.steps) == FreeTrace(m, s.steps);
  }

  // ------------------------------------ deliberate reboots outside of groups

  predicate OutsideGroups(b: Body) { LeftInside(b) == 0 }

  /** Every step of the tree under `c` loses the process, if at all, outside of groups. */
  predicate AtDepthZero(c: Code) {
    Throughout(c, OutsideGroups)
  }

  lemma {:induction false} NoMarkFromFrames(ancestors: seq<Code>)
    requires Replayable(ancestors)
    ensures FramesMark(ancestors, None).None?
  {
    if ancestors != [] {
      NothingLeftOpen(ancestors[0].body);
      NoMarkOutside(ancestors[0].body.acts);
      NoMarkFromFrames(ancestors[1..]);
    }
  }

  lemma {:induction false} NoDrift(m: Machine, steps: seq<StepTuple>)
    requires AllSteps(steps, OutsideGroups, AnyBoot) && QuietSteps(steps)
    ensures TreeDrift(m, steps, None) == 0
    decreases Size(steps)
  {
    if steps != [] {
      StepShrinks(steps);
      AllStepsAfter(steps, OutsideGroups, AnyBoot);
      QuietStepsAfter(steps);
      assert FnThroughout(steps[0].fn, OutsideGroups, AnyBoot) && QuietAncestors(steps[0].ancestry);
      NoMarkFromFrames(steps[0].ancestry);
      if steps[0].fn.User? {
        NoMarkOutside(steps[0].fn.code.body.acts);
      }
      NoDrift(m, StepsAfter(steps));
    }
  }

  /** For every tree of nested groups and every mix of test errors, job errors,
      plain exceptions and returns, across any number of reboots issued outside
      of groups, the indent is 0 at runjob's assert. */
  lemma IndentZeroAtAssert(m: Machine, c: Code, restarts: nat)
    requires Throughout(c, Quiet)
    requires AtDepthZero(c) && RunJob(m, StartJob(Some(c)), restarts).1.AtAssert?
    ensures RunJob(m, StartJob(Some(c)), restarts).1.indent == 0
  {
    assert StartJob(Some(c)).steps == [StepTuple([], User(c))];
    NoDrift(m, StartJob(Some(c)).steps);
    AssertHoldsExactly(m, Some(c), restarts);
  }

  // ----------------------------------------------------- reboots in the log

  function StartsReboot(e: Entry): nat { if e == Entry(Start, Reboot) then 1 else 0 }

  function EndsReboot(e: Entry): nat { if e.status.End? && e.op == Reboot then 1 else 0 }

  /** Reboots begun in the log and not ended in it. */
  function OpenReboots(log: seq<Entry>): int {
    Sum(log, StartsReboot) - Sum(log, EndsReboot)
  }

  lemma RecordCounts(s: Job, st: Status, op: Operation)
    ensures var t := Record(s, st, op);
            && s.log <= t.log
            && Sum(t.log, StartsReboot) == Sum(s.log, StartsReboot) + StartsReboot(Entry(st, op))
            && Sum(t.log, EndsReboot) == Sum(s.log, EndsReboot) + EndsReboot(Entry(st, op))
  {
    SumAppend(s.log, Entry(st, op), StartsReboot);
    SumAppend(s.log, Entry(st, op), EndsReboot);
  }

  lemma RecordReboots(s: Job, st: Status, op: Operation)
    ensures OpenReboots(Record(s, st, op).log) == OpenReboots(s.log) + (if op == Reboot then Delta(st) else 0)
  {
    RecordCounts(s, st, op);
  }

  lemma GroupReboots(s: Job, name: string, g: Signal)
    ensures OpenReboots(OpenGroup(s, name).log) == OpenReboots(s.log)
    ensures OpenReboots(CloseGroup(s, name, g).log) == OpenReboots(s.log)
  {
    RecordReboots(s, Start, Unit(name));
    match g
    case Normal => RecordReboots(s, End("GOOD"), Unit(name));
    case TestExc(status) => RecordReboots(s, End(status), Unit(name));
    case JobExc(_) => RecordReboots(s, End("ABORT"), Unit(name));
    case OtherExc => RecordReboots(s, End("ERROR"), Unit(name));
    case _ =>
  }

  lemma {:induction false} BodyReboots(b: Body, s: Job)
    ensures OpenReboots(RunBody(b, s).0.log) == OpenReboots(s.log) + Boots(Calls(b))
    decreases b
  {
    ActsReboots(b.acts, s);
    BodyEffect(b, s);
    ActsEffect(b.acts, s);
    var s1 := RunActs(b.acts, s).0;
    if ActsOutcome(b.acts).Normal? && b.ending.Boot? {
      var call := Call(Prepend, AfterBoot(BootCall(b.ending)));
      var s2 := Apply(s1, Prepend, call.fn);
      RecordReboots(s2, Start, Reboot);
      RecordReboots(Record(s2, Start, Reboot), Plain("GOOD"), RebootPhase("reboot.start"));
      SumAppend(ActsCalls(b.acts), call, IsBootCall);
    } else {
      assert Calls(b) == ActsCalls(b.acts);
    }
  }

  lemma {:induction false} ActsReboots(acts: seq<Act>, s: Job)
    ensures OpenReboots(RunActs(acts, s).0.log) == OpenReboots(s.log) + Boots(ActsCalls(acts))
    decreases acts
  {
    if acts != [] {
      ActReboots(acts[0], s);
      ActEffect(acts[0], s);
      if ActOutcome(acts[0]).Normal? {
        ActsReboots(acts[1..], RunAct(acts[0], s).0);
        SumConcat(ActCalls(acts[0]), ActsCalls(acts[1..]), IsBootCall);
      } else {
        assert ActsCalls(acts) == ActCalls(acts[0]);
      }
    }
  }

  lemma {:induction false} ActReboots(a: Act, s: Job)
    ensures OpenReboots(RunAct(a, s).0.log) == OpenReboots(s.log) + Boots(ActCalls(a))
    decreases a
  {
    match a
    case Queue(how, code) => SumSingle(Call(how, User(code)), IsBootCall);
    case RunTest(name, t) => TestReboots(s, name, t);
    case RunGroup(tag, body) =>
      BodyReboots(body, OpenGroup(s, tag));
      GroupReboots(s, tag, Normal);
      GroupReboots(RunBody(body, OpenGroup(s, tag)).0, tag, RunBody(body, OpenGroup(s, tag)).1);
    case Guarded(body) => BodyReboots(body, s);
  }

  lemma TestReboots(s: Job, name: string, t: TestOutcome)
    ensures OpenReboots(RunAct(RunTest(name, t), s).0.log) == OpenReboots(s.log)
  {
    var s0 := OpenGroup(s, name);
    GroupReboots(s, name, Normal);
    match t {
      case Passed => RecordReboots(s0, Plain("GOOD"), Unit(name));
      case Failed(status) => RecordReboots(s0, Plain(status), Unit(name));
      case _ =>
    }
    GroupReboots(TestBody(s0, name, t).0, name, TestBody(s0, name, t).1);
  }

  /** `t` extends the log of `s` by entries of which one ends a reboot, with
      status `st` and last, and none starts one. */
  ghost predicate ClosesOne(s: Job, t: Job, st: Status) {
    && s.log <= t.log
    && Sum(t.log, EndsReboot) == Sum(s.log, EndsReboot) + 1
    && Sum(t.log, StartsReboot) == Sum(s.log, StartsReboot)
    && t.log != [] && t.log[|t.log| - 1] == Entry(st, Reboot)
  }

  lemma FailureClosesOne(s: Job, phase: string)
    ensures ClosesOne(s, RecordRebootFailure(s, phase), End("ABORT"))
  {
    RecordCounts(s, Plain("ABORT"), RebootPhase(phase));
    RecordCounts(Record(s, Plain("ABORT"), RebootPhase(phase)), End("ABORT"), Reboot);
  }

  lemma FinishClosesOne(s: Job, o: Observation, abort: bool)
    ensures var (t, g) := FinishReboot(s, o, abort);
            ClosesOne(s, t, if g.Normal? then End("GOOD") else End("ABORT"))
  {
    FailureClosesOne(s, "reboot.verify_config");
    RecordCounts(s, End("GOOD"), Reboot);
  }

  /** On every path of a post-boot step, failing or not, exactly one END closes
      the START of its reboot, it is the last entry, and no reboot is started. */
  lemma PostBootClosesOnce(m: Machine, s: Job, call: PostBoot)
    ensures var (t, g) := RunPostBoot(m, s, call);
            && ClosesOne(s, t, if g.Normal? then End("GOOD") else End("ABORT"))
            && g == PostBootSignal(m, call)
  {
    var o := m.observe(call);
    if call.EndReboot? {
      FinishClosesOne(s, o, m.abortOnMismatch);
    } else if WrongKernel(call, o) {
      FailureClosesOne(s, "reboot.verify");
    } else {
      var s1 := Record(s, Plain("GOOD"), RebootPhase("reboot.verify"));
      RecordCounts(s, Plain("GOOD"), RebootPhase("reboot.verify"));
      FinishClosesOne(s1, o, m.abortOnMismatch);
    }
  }

  lemma UserStepReboots(s: Job, code: Code)
    ensures OpenReboots(RunUserStep(s, code).0.log) == OpenReboots(s.log) + Boots(Calls(code.body))
  {
    BodyReboots(code.body, s);
    RecordReboots(RunBody(code.body, s).0, Plain(TEST_NA), Unit(code.name));
  }

  lemma {:induction false} FramesReboots(ancestors: seq<Code>, s: Job)
    requires Replayable(ancestors)
    ensures OpenReboots(RunFrames(ancestors, s).0.log) == OpenReboots(s.log)
    decreases |ancestors|
  {
    if ancestors != [] {
      BodyReboots(ancestors[0].body, s);
      BodyEffect(ancestors[0].body, s);
      NothingLeftOpen(ancestors[0].body);
      FramesReboots(ancestors[1..], RunBody(ancestors[0].body, s).0);
    }
  }

  lemma StepReboots(m: Machine, s: Job)
    requires s.steps != [] && QuietSteps(s.steps) && BootAtHead(s.steps)
    ensures var t := RunStep(m, s).0;
            OpenReboots(t.log) - Pending(t.steps) == OpenReboots(s.log) - Pending(s.steps)
  {
    assert QuietAncestors(s.steps[0].ancestry);
    StepTaken(m, s);
    PendingAfter(s.steps);
    FramedQuietly(m, s);
    FramesReboots(s.steps[0].ancestry, PopStep(s));
    match s.steps[0].fn
    case AfterBoot(call) => PostBootClosesOnce(m, Framed(s), call);
    case User(c) => UserStepReboots(Framed(s), c);
  }

  lemma {:induction false} LoopReboots(m: Machine, s: Job)
    requires QuietSteps(s.steps)
    requires BootAtHead(s.steps)
    ensures var t := RunLoop(m, s).0;
            OpenReboots(t.log) - Pending(t.steps) == OpenReboots(s.log) - Pending(s.steps)
    decreases Size(s.steps)
  {
    if s.steps != [] {
      StepTaken(m, s);
      StepReboots(m, s);
      StepIndent(m, s);
      if RunStep(m, s).1.Normal? {
        LoopReboots(m, RunStep(m, s).0);
      }
    }
  }

  lemma ResumeReboots(s: Job)
    ensures OpenReboots(Resume(s).log) == OpenReboots(s.log)
  {
    match s.marker
    case None =>
    case Some(name) =>
      RecordReboots(s, Plain("FAIL"), Unit(name));
      RecordReboots(Record(s, Plain("FAIL"), Unit(name)), End("FAIL"), Unit(name));
  }

  lemma ConcludeReboots(s: Job, g: Signal)
    ensures OpenReboots(Conclude(s, g).0.log) == OpenReboots(s.log)
  {
    RecordReboots(s, End("GOOD"), WholeJob);
    RecordReboots(s, End("ABORT"), WholeJob);
    RecordReboots(s, Plain("ABORT"), WholeJob);
    RecordReboots(Record(s, Plain("ABORT"), WholeJob), End("ABORT"), WholeJob);
  }

  /** Whatever happens to the job's processes, the reboots open in the log are
      the post-boot steps still queued; at the assert there is none of either. */
  lemma {:induction false} RebootsClosed(m: Machine, s: Job, restarts: nat)
    requires QuietSteps(s.steps)
    requires BootAtHead(s.steps) && OpenReboots(s.log) == Pending(s.steps)
    ensures var (t, v) := RunJob(m, s, restarts);
            OpenReboots(t.log) == Pending(t.steps) && (v.AtAssert? ==> OpenReboots(t.log) == 0)
    decreases restarts
  {
    LoopReboots(m, s);
    LoopIndent(m, s);
    RestartStep(m, s, restarts);
    var (s1, g) := RunLoop(m, s);
    ConcludeFacts(s1, g);
    if Restartable(g) && restarts > 0 {
      ResumeReboots(s1);
      RebootsClosed(m, Resume(s1), restarts - 1);
    } else {
      ConcludeReboots(s1, g);
    }
  }
}
