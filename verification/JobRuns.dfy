/** The step engine as a whole, and whole jobs across restarts. */
module JobRuns {
  import opened Options
  import opened Sequences
  import opened JobPrograms
  import opened JobSpec
  import opened JobEngine
  import opened JobTrees

  /** What is known of a step that has been taken. */
  lemma StepTaken(m: Machine, s: Job)
    requires s.steps != [] && QuietSteps(s.steps)
    ensures var (t, g) := RunStep(m, s);
            && t.steps == StepsAfter(s.steps)
            && g == StepOutcome(m, s.steps[0].fn)
            && t.ran == s.ran + [s.steps[0].fn]
            && Size(t.steps) < Size(s.steps) && QuietSteps(t.steps)
  {
    assert QuietAncestors(s.steps[0].ancestry);
    StepLayout(m, s);
    StepShrinks(s.steps);
    QuietStepsAfter(s.steps);
  }

  /** One process's share of step_engine's loop. */
  function RunLoop(m: Machine, s: Job): (r: (Job, Signal))
    requires QuietSteps(s.steps)
    ensures QuietSteps(r.0.steps)
    decreases Size(s.steps)
  {
    if s.steps == [] then (s, Normal)
    else
      StepTaken(m, s);
      var (s1, g) := RunStep(m, s);
      if g.Normal? then RunLoop(m, s1) else (s1, g)
  }

  /** How runjob ends: at its assert on the indent, exiting to be started
      again, or exiting for good without reaching an assert. */
  datatype Verdict = AtAssert(indent: int) | Paused | Gone

  function Conclude(s: Job, g: Signal): (Job, Verdict) {
    match g
    case Normal =>
      var t := Record(s, End("GOOD"), WholeJob);
      (t, AtAssert(t.indent))
    case Continue => (s, Paused)
    case Down => (s, Paused)
    case Leave => (s, Gone)
    case JobExc(cmd) =>
      var t := Record(if cmd then Record(s, Plain("ABORT"), WholeJob) else s, End("ABORT"), WholeJob);
      (t, AtAssert(t.indent))
    case _ =>
      var t := Record(s, End("ABORT"), WholeJob);
      (t, AtAssert(t.indent))
  }

  predicate QuietStart(stepInit: Option<Code>) {
    stepInit.Some? ==> Throughout(stepInit.value, Quiet)
  }

  /** A first start: the START of the job, and step_init if there is one. */
  function StartJob(stepInit: Option<Code>): (s: Job)
    ensures QuietStart(stepInit) ==> QuietSteps(s.steps)
  {
    var s := Record(Job([], 0, None, [], 0, [], [], []), Start, WholeJob);
    match stepInit
    case None => s
    case Some(code) => Apply(s, Next, User(code))
  }

  /** A continuation: process state anew, and an unfinished group closed. */
  function Resume(s: Job): Job {
    var t := s.(index := 0, ancestry := []);
    match s.marker
    case None => t
    case Some(name) => Record(Record(t, Plain("FAIL"), Unit(name)), End("FAIL"), Unit(name))
  }

  predicate Restartable(g: Signal) {
    g.Continue? || g.Down?
  }

  /** A job run with at most `restarts` continuations. */
  function RunJob(m: Machine, s: Job, restarts: nat): (Job, Verdict)
    requires QuietSteps(s.steps)
    decreases restarts
  {
    var (s1, g) := RunLoop(m, s);
    if Restartable(g) && restarts > 0 then RunJob(m, Resume(s1), restarts - 1) else Conclude(s1, g)
  }

  /** A job lost with restarts left goes on from what is saved; any other is over. */
  lemma RestartStep(m: Machine, s: Job, left: nat)
    requires QuietSteps(s.steps)
    ensures var (s1, g) := RunLoop(m, s);
            var (t, v) := Conclude(s1, g);
            if v.Paused? && left > 0 then t == s1 && RunJob(m, s, left) == RunJob(m, Resume(t), left - 1)
            else RunJob(m, s, left) == (t, v)
  {
    var (s1, g) := RunLoop(m, s);
    var (t, v) := Conclude(s1, g);
    if Restartable(g) && left > 0 {
      assert RunJob(m, s, left) == RunJob(m, Resume(s1), left - 1);
    } else {
      assert RunJob(m, s, left) == Conclude(s1, g);
    }
  }

  predicate EndsGood(log: seq<Entry>) {
    log != [] && log[|log| - 1] == Entry(End("GOOD"), WholeJob)
  }

  /** The log of a job ends with END GOOD if the engine has ended normally, and
      with END ABORT if it was left by an exception, after an ABORT if that is a
      JobError with a second argument. A job that is left by an exit gets no END. */
  lemma ConcludeEntries(s: Job, g: Signal)
    ensures var (t, v) := Conclude(s, g);
            var abort := if g == JobExc(true) then [Entry(Plain("ABORT"), WholeJob)] else [];
            var end := if g.Normal? then [Entry(End("GOOD"), WholeJob)] else [Entry(End("ABORT"), WholeJob)];
            && (v.Gone? <==> g.Leave?) && (v.Paused? <==> g.Continue? || g.Down?)
            && t.log == s.log + (if v.AtAssert? then abort + end else [])
            && (v.AtAssert? ==> (EndsGood(t.log) <==> g.Normal?))
  {
    if g.JobExc? && g.cmd {
      AppendTwo(s.log, Entry(Plain("ABORT"), WholeJob), Entry(End("ABORT"), WholeJob));
    }
  }

  lemma ConcludeFacts(s: Job, g: Signal)
    ensures var (t, v) := Conclude(s, g);
            && t.steps == s.steps && (v.Paused? <==> Restartable(g))
            && (v.AtAssert? ==> v.indent == s.indent - 1 && !LeavesProcess(g))
  {
  }
}
