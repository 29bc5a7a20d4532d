/** Crashes inside groups and the unexpected_reboot mark: which crashes the next
    process closes, and which of them later processes close again. */
module JobCrashes {
  import opened Options
  import opened JobPrograms
  import opened JobSpec
  import opened JobEngine
  import opened JobTrees
  import opened JobRuns
  import opened JobMarks
  import opened JobStatus

  // ----------------------------------------------------- closed by the resume

  /** Where a crash inside a group leaves the job. */
  lemma {:induction false} CrashInGroup(tag: string, group: Body, s: Job)
    requires Outcome(group).Down?
    ensures var (s1, g) := RunAct(RunGroup(tag, group), s);
            && g.Down?
            && s1.indent == s.indent + 1 + ActsLeftInside(group.acts)
            && s1.marker == ActsMark(group.acts, Some(tag))
  {
    ActEffect(RunGroup(tag, group), s);
    ActMarked(RunGroup(tag, group), s);
    BodyBoots(group);
  }

  /** A crash inside the function of a group is closed by the next process, which
      then finds the indent of before the group, if and only if the function has
      performed no test and no group of its own before the crash. */
  lemma CrashClosedExactly(tag: string, group: Body, s: Job)
    requires Outcome(group).Down?
    ensures Resume(RunAct(RunGroup(tag, group), s).0).indent == s.indent <==> !Opens(group.acts)
  {
    CrashInGroup(tag, group, s);
    MarkForgotten(group.acts, Some(tag), None);
    if Opens(group.acts) {
      if ActsMark(group.acts, Some(tag)).Some? {
        MarkedInside(group.acts, Some(tag));
      }
    } else {
      NothingOpened(group.acts);
    }
  }

  /** The entries that close it. */
  lemma {:induction false} CrashInGroupIsClosed(tag: string, group: Body, s: Job)
    requires Outcome(group).Down? && !Opens(group.acts)
    ensures var (s1, g) := RunAct(RunGroup(tag, group), s);
            && s1.marker == Some(tag) && Resume(s1).indent == s.indent
            && Resume(s1).log == s1.log + [Entry(Plain("FAIL"), Unit(tag)), Entry(End("FAIL"), Unit(tag))]
  {
    CrashClosedExactly(tag, group, s);
    CrashInGroup(tag, group, s);
    MarkForgotten(group.acts, Some(tag), None);
  }

  // ------------------------------------------------- closed again by the next

  predicate FramesOpen(ancestors: seq<Code>) {
    ancestors != [] && (Opens(ancestors[0].body.acts) || FramesOpen(ancestors[1..]))
  }

  /** The step, or a function that is called again for it, performs a test or a group. */
  predicate StepOpens(t: StepTuple) {
    FramesOpen(t.ancestry) || (t.fn.User? && Opens(t.fn.code.body.acts))
  }

  lemma {:induction false} FramesForget(ancestors: seq<Code>, mark: Option<string>, other: Option<string>)
    ensures !FramesOpen(ancestors) ==> FramesMark(ancestors, mark) == mark
    ensures FramesOpen(ancestors) ==> FramesMark(ancestors, mark) == FramesMark(ancestors, other)
  {
    if ancestors != [] {
      var acts := ancestors[0].body.acts;
      MarkForgotten(acts, mark, other);
      FramesForget(ancestors[1..], ActsMark(acts, mark), ActsMark(acts, other));
    }
  }

  lemma StepForgets(t: StepTuple, mark: Option<string>, other: Option<string>)
    ensures !StepOpens(t) ==> StepMark(t, mark) == mark
    ensures StepOpens(t) ==> StepMark(t, mark) == StepMark(t, other)
  {
    FramesForget(t.ancestry, mark, other);
    if t.fn.User? {
      MarkForgotten(t.fn.code.body.acts, FramesMark(t.ancestry, mark), FramesMark(t.ancestry, other));
    }
  }

  /** Some step that a process gets to performs a test or a group. */
  predicate ProcessOpens(m: Machine, steps: seq<StepTuple>)
    decreases Size(steps)
  {
    if steps == [] then false
    else
      StepShrinks(steps);
      StepOpens(steps[0]) || (StepOutcome(m, steps[0].fn).Normal? && ProcessOpens(m, StepsAfter(steps)))
  }

  /** How a process ends, and the mark it leaves, read off the steps. */
  function ProcessEnd(m: Machine, steps: seq<StepTuple>, mark: Option<string>): (Signal, Option<string>)
    decreases Size(steps)
  {
    if steps == [] then (Normal, mark)
    else
      StepShrinks(steps);
      var g, after := StepOutcome(m, steps[0].fn), StepMark(steps[0], mark);
      if g.Normal? then ProcessEnd(m, StepsAfter(steps), after) else (g, after)
  }

  lemma {:induction false} ProcessEnds(m: Machine, s: Job)
    requires QuietSteps(s.steps)
    ensures var (t, g) := RunLoop(m, s); (g, t.marker) == ProcessEnd(m, s.steps, s.marker)
    decreases Size(s.steps)
  {
    if s.steps != [] {
      assert QuietAncestors(s.steps[0].ancestry);
      StepTaken(m, s);
      StepMarked(m, s);
      if RunStep(m, s).1.Normal? {
        ProcessEnds(m, RunStep(m, s).0);
      }
    }
  }

  /** A process keeps the mark it finds, or forgets it; it ends the same. */
  lemma {:induction false} ProcessForgets(m: Machine, steps: seq<StepTuple>, mark: Option<string>,
                                          other: Option<string>)
    ensures ProcessEnd(m, steps, mark).0 == ProcessEnd(m, steps, other).0
    ensures !ProcessOpens(m, steps) ==> ProcessEnd(m, steps, mark).1 == mark
    ensures ProcessOpens(m, steps) ==> ProcessEnd(m, steps, mark).1 == ProcessEnd(m, steps, other).1
    decreases Size(steps)
  {
    if steps != [] {
      StepShrinks(steps);
      StepForgets(steps[0], mark, other);
      ProcessForgets(m, StepsAfter(steps), StepMark(steps[0], mark), StepMark(steps[0], other));
    }
  }

  /** The resume that reports a mark does not discard it. The process after it
      leaves whatever mark was there, and is followed by one that reports it
      again, if and only if it performs no test and no group and is itself lost. */
  lemma ReportedAgainExactly(m: Machine, s: Job)
    requires QuietSteps(s.steps)
    ensures (forall name ::
               var (t, g) := RunLoop(m, Resume(s.(marker := Some(name))));
               Restartable(g) && t.marker == Some(name))
            <==> Restartable(ProcessEnd(m, s.steps, None).0) && !ProcessOpens(m, s.steps)
  {
    forall name
      ensures var (t, g) := RunLoop(m, Resume(s.(marker := Some(name))));
              (g, t.marker) == ProcessEnd(m, s.steps, Some(name))
    {
      ProcessEnds(m, Resume(s.(marker := Some(name))));
    }
    forall name ensures ProcessEnd(m, s.steps, Some(name)).0 == ProcessEnd(m, s.steps, None).0
                        && (!ProcessOpens(m, s.steps) ==> ProcessEnd(m, s.steps, Some(name)).1 == Some(name))
    {
      ProcessForgets(m, s.steps, Some(name), None);
    }
    ProcessForgets(m, s.steps, Some("1"), Some("2"));
    assert RunLoop(m, Resume(s.(marker := Some("1")))).0.marker == ProcessEnd(m, s.steps, Some("1")).1;
    assert RunLoop(m, Resume(s.(marker := Some("2")))).0.marker == ProcessEnd(m, s.steps, Some("2")).1;
  }

  // ------------------------------------------------------- two jobs in figures

  const ANY_MACHINE: Machine := Machine(_ => Observation("", 0, true, true), false)

  const NESTED_CRASH: Code :=
    Code("step_init", 0, Body([RunGroup("outer", Body([RunTest("inner", Passed)], Crash))], Return(None)))

  lemma FirstSteps(c: Code)
    ensures StartJob(Some(c)).steps == [StepTuple([], User(c))]
  {
  }

  lemma LastDrift(m: Machine, steps: seq<StepTuple>, mark: Option<string>)
    requires steps != [] && StepsAfter(steps) == [] && Restartable(StepOutcome(m, steps[0].fn))
    ensures TreeDrift(m, steps, mark)
            == DepthOf(steps[0].fn) - if StepMark(steps[0], mark).Some? then 1 else 0
    ensures TreeEnd(m, steps).Normal?
  {
  }

  lemma NestedCrashStep()
    ensures var acts := NESTED_CRASH.body.acts;
            ActsOutcome(acts).Down? && ActsLeftInside(acts) == 1 && ActsMark(acts, None).None? && ActsCalls(acts) == []
  {
    var outer := NESTED_CRASH.body.acts[0];
    var inner := outer.group.acts;
    assert inner[1..] == [] && NESTED_CRASH.body.acts[1..] == [];
    assert ActsOutcome(inner).Normal? && ActsMark(inner, Some("outer")).None?;
    assert ActOutcome(outer).Down? && ActLeftInside(outer) == 1 && ActMark(outer, None).None?;
  }

  /** A group that has run a test loses its mark, and the assert meets indent 1. */
  lemma NestedCrashIsNotClosed(restarts: nat)
    requires restarts >= Size(StartJob(Some(NESTED_CRASH)).steps)
    ensures RunJob(ANY_MACHINE, StartJob(Some(NESTED_CRASH)), restarts).1 == AtAssert(1)
  {
    FirstSteps(NESTED_CRASH);
    NestedCrashStep();
    LastDrift(ANY_MACHINE, [StepTuple([], User(NESTED_CRASH))], None);
    VerdictOfTree(ANY_MACHINE, Some(NESTED_CRASH), restarts);
  }

  const REBOOTING: Code := Code("boot", 0, Body([], Quit))

  const CRASH_THEN_REBOOT: Code :=
    Code("step_init", 0, Body([Queue(Append, REBOOTING), RunGroup("g", Body([], Crash))], Return(None)))

  lemma CrashingStep()
    ensures var acts := CRASH_THEN_REBOOT.body.acts;
            && ActsOutcome(acts).Down? && ActsLeftInside(acts) == 1 && ActsMark(acts, None) == Some("g")
            && Calls(CRASH_THEN_REBOOT.body) == [Call(Append, User(REBOOTING))]
  {
    var acts := CRASH_THEN_REBOOT.body.acts;
    var group := acts[1];
    assert acts[1..] == [group] && [group][1..] == [];
    assert ActOutcome(group).Down? && ActLeftInside(group) == 1 && ActMark(group, None) == Some("g");
    assert ActsCalls([group]) == [] && ActsCalls(acts) == ActCalls(acts[0]) + ActsCalls(acts[1..]);
    assert ActsOutcome([group]).Down? && ActsLeftInside([group]) == 1 && ActsMark([group], None) == Some("g");
  }

  lemma CrashingQuietly()
    ensures QuietStart(Some(CRASH_THEN_REBOOT))
  {
    var acts := CRASH_THEN_REBOOT.body.acts;
    assert acts[1..] == [acts[1]] && [acts[1]][1..] == [];
    assert Throughout(REBOOTING, Quiet);
    assert ActThroughout(acts[0], Quiet) && ActThroughout(acts[1], Quiet);
    assert ActsThroughout([acts[1]], Quiet);
  }

  lemma OneAppended(c: Call, a: seq<Code>)
    requires c.how.Append?
    ensures Layout([c], a, []) == [StepTuple(a, c.fn)]
  {
    assert [c][1..] == [];
    assert Picked([c], Prepend, a) == [] + Picked([c][1..], Prepend, a) == [];
    assert Picked([c], Next, a) == [] + Picked([c][1..], Next, a) == [];
    assert Picked([c], Append, a) == [StepTuple(a, c.fn)] + [];
  }

  /** A crash in a group is closed, and closed again after a reboot in between:
      the assert meets -1. */
  lemma ClosedTwice(restarts: nat)
    requires restarts >= Size(StartJob(Some(CRASH_THEN_REBOOT)).steps)
    ensures QuietStart(Some(CRASH_THEN_REBOOT))
    ensures RunJob(ANY_MACHINE, StartJob(Some(CRASH_THEN_REBOOT)), restarts).1 == AtAssert(-1)
  {
    CrashingQuietly();
    FirstSteps(CRASH_THEN_REBOOT);
    CrashingStep();
    var steps, next := [StepTuple([], User(CRASH_THEN_REBOOT))], [StepTuple([], User(REBOOTING))];
    OneAppended(Call(Append, User(REBOOTING)), []);
    assert StepsAfter(steps) == next;
    assert Outcome(REBOOTING.body).Continue? && Calls(REBOOTING.body) == [];
    assert StepsAfter(next) == [];
    LastDrift(ANY_MACHINE, next, Some("g"));
    assert TreeDrift(ANY_MACHINE, steps, None) == 0 + TreeDrift(ANY_MACHINE, next, Some("g"));
    VerdictOfTree(ANY_MACHINE, Some(CRASH_THEN_REBOOT), restarts);
  }
}
